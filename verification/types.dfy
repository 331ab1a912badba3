/** The two record shapes of the dashboard (src/types/index.ts). */
module Types {
  import opened Numbers

  /** One reported sales observation. The same `name` may occur in many
      records. The record type declares `sold_count` as a plain number; the
      model takes it to be a non-negative integer. */
  datatype ProductSale = ProductSale(id: string, name: string, sold_count: nat, avg_price: real)

  /** The per-name rollup. `avg_price` is a JavaScript number because it is
      the quotient `total_revenue / sold_count`, which is NaN when the
      summed sold count is zero. */
  datatype AggregatedProduct = AggregatedProduct(name: string, sold_count: nat, avg_price: Num, total_revenue: real)
}
