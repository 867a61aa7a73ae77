/**
 * The result records of the Telegraph API (types.go `Account`, `Page`,
 * `PageList`, `PageViews`), as values.
 */
module Records {
  import opened Content

  datatype Account = Account(
    shortName: string, authorName: string, authorUrl: string,
    accessToken: string, authUrl: string, pageCount: int)

  datatype Page = Page(
    path: string, url: string, title: string, description: string,
    authorName: string, authorUrl: string, imageUrl: string,
    content: seq<Node>, views: int, canEdit: bool)

  /** The zero page every conversion starts from. */
  const EmptyPage := Page("", "", "", "", "", "", "", [], 0, false)

  datatype PageList = PageList(totalCount: int, pages: seq<Page>)

  datatype PageViews = PageViews(views: int)
}
