/** The catalog snapshots the stores copy at add time. Only the fields the
    stores read are named; everything else a product or variant carries
    (names, sku, images, colour, size, reviews, timestamps, ...) is kept as an
    uninterpreted list of display fields that the stores copy but never inspect. */
module Catalog {

  /** Prices are integer cents (JavaScript numbers in the source). */
  type Cents = int

  /** Display data that travels with a snapshot and is never inspected. */
  datatype Details = Details(fields: seq<(string, string)>)

  /** A product with its details, identified by `id`. */
  datatype Product = Product(id: string, details: Details)

  /** A product variant: its unit price plus the rest of its snapshot. */
  datatype Variant = Variant(price: Cents, details: Details)
}
