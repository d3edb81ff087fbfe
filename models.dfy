/** The records both scrapers build with `newCategory`. */
module Models {

  /** A site section whose listing page is scraped: id, listing path and display title. */
  datatype Category = Category(id: int, url: string, title: string)
}
