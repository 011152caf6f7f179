/** The record both support-guide extractors produce. */
module SupportTypes {
  import opened Wrappers

  /** A parsed support-guide page: its title, its Markdown body, the
      published date when the page states one, and the related links when
      there are any. */
  datatype ParsedContent = ParsedContent(
    title: string,
    body: string,
    publishedDate: Option<string>,
    relatedLinks: Option<seq<string>>)
}
