/**
 * The full-project payload the backend returns for a project and the pages
 * read: a project, its chapters, each chapter's main table lines and each
 * line's detail lines. Identifiers are the stored ids; amounts are reals.
 */
module ProjectData {
  import opened Cells

  datatype Project = Project(id: int, name: string, userId: int, companyId: int)

  /** A chapter row; `parentId` is `None` for a top-level chapter. */
  datatype Chapter = Chapter(id: int, projectId: int, parentId: Option<int>, num: string, caption: string, content: string)

  /** A main table line of a chapter. */
  datatype MainLine = MainLine(
    id: int, chapterId: int, gr: string, num: string, title: string, nm: string, unit: string,
    quantity: real, unitPrice: real, totalPrice: real, comments: string, position: int)

  /** A detail line of a main table line. */
  datatype DetailLine = DetailLine(
    id: int, mainTableLineId: int, title: string, number: real, length: real, width: real,
    height: real, factor: real, total: real, comments: string, position: int)

  datatype LineWithDetails = LineWithDetails(mainTableLine: MainLine, details: seq<DetailLine>)

  datatype ChapterWithLines = ChapterWithLines(chapter: Chapter, lines: seq<LineWithDetails>)

  datatype ProjectFull = ProjectFull(project: Project, chapters: seq<ChapterWithLines>)
}
