/** The record shapes shared by the editor's client code (src/types.ts). */
module Types {

  /** An optional value; the source's `null` for a missing outline or error. */
  datatype Option<+T> = None | Some(value: T)

  /** An article outline as the outline endpoint returns it. */
  datatype ArticleOutline = ArticleOutline(
    title: string,
    slug: string,
    metaDescription: string,
    outline: seq<string>)

  /** One section of the draft: its heading, its generated HTML and whether a request for it is in flight. */
  datatype ArticleSection = ArticleSection(
    heading: string,
    content: string,
    isGenerating: bool)
}
