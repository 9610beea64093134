/** The values shared by the server route, the page and the card: search
    parameters, template-literal rendering, and the `requirements` field of
    a scholarship (src/types/index.ts). */
module Types {
  import opened Wrappers

  /** `Record<string, string>`: search parameters as the page builds and sends
      them (`caste`, `religion`, `state`, `educationLevel`, and whatever else
      the query parser or the questionnaire produced). */
  type Params = map<string, string>

  /** An optional string as a template literal renders it: `undefined`
      prints as "undefined". */
  function Rendered(o: Option<string>): string {
    match o
    case Some(v) => v
    case None => "undefined"
  }

  /** `${params[key]}` in a template literal. */
  function Field(p: Params, key: string): string {
    Rendered(if key in p then Some(p[key]) else None)
  }

  /** The `requirements` field as it may arrive: declared `string[]`, but the
      card also accepts a single string or nothing. */
  datatype Requirements = Absent | Listed(items: seq<string>) | Described(text: string)
}
