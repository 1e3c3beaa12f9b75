/** The project configuration (data/project.go), as read from project.json. */
module Data {

  datatype ProjectHtml = ProjectHtml(outputFolder: string, template: string)

  datatype ProjectPdf = ProjectPdf(
    outputFolder: string,
    template: string,
    outputFileName: string,
    args: seq<string>,
    biblatex: bool)

  datatype Project = Project(
    name: string,
    author: string,
    version: string,
    format: string,
    tableOfContent: bool,
    bibliography: string,
    sources: seq<string>,
    assets: seq<string>,
    outputFolder: string,
    targets: seq<string>,
    html: ProjectHtml,
    pdf: ProjectPdf)
}
