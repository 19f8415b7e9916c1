/** The JSON documents the Digital Collections API returns, as values.
    Every page is a datatype. The two start objects that the walkers update
    in place are classes in module Helpers. `get_all_iiif` also pops the
    trailing Collection off each fetched page's own `items` list. The model
    keeps the fetched page an immutable value and gives its items after the
    pop by the function `Helpers.Trim`; other references to that list, which
    would see the pop, are not modelled. */
module Pages {

  datatype Option<+T> = None | Some(value: T)

  /** A URL, kept opaque: the walkers never build or parse one. */
  type Url = string

  /** Any JSON value; records are never inspected by the walkers. */
  datatype Json =
    | Null
    | Bool(b: bool)
    | Num(n: int)
    | Str(s: string)
    | Arr(elems: seq<Json>)
    | Obj(fields: map<string, Json>)

  /** Python truthiness of a `next` pointer: `None` and `""` are false. */
  predicate Truthy(p: Option<Url>)
  {
    p.Some? && p.value != ""
  }

  // ---------------------------------------------------------------------
  // Cursor ("opensearch") result pages

  /** `pagination`: the `next_url` entry (None when the key is absent or
      null) and every other key (`total_hits`, `total_pages`, ...). */
  datatype Pagination = Pagination(nextUrl: Option<Url>, others: map<string, Json>)

  /** A flat result page: `data`, `pagination` and the remaining top-level
      keys such as `info`. */
  datatype CursorPage = CursorPage(data: seq<Json>, pagination: Pagination, others: map<string, Json>)

  // ---------------------------------------------------------------------
  // IIIF Presentation result pages

  /** An entry of `items`: its `type` and `id` (None when absent) and its
      other keys (`label`, ...). */
  datatype Item = Item(typ: Option<string>, id: Option<Url>, others: map<string, Json>)

  /** A IIIF Collection page: its `items` and its other keys (`@context`,
      `id`, `label`, ...). */
  datatype IiifPage = IiifPage(items: seq<Item>, others: map<string, Json>)

  /** An item whose `type` is exactly "Collection" points at the next page. */
  predicate IsCollection(item: Item)
  {
    item.typ == Some("Collection")
  }
}
