/** The converter command line of the PDF build (build/pdf.go): a fixed
    13-argument prefix, then the user's arguments, then the optional
    table-of-contents, bibliography and biblatex groups, in that order.
    `join` stands for path.Join. */
module Pdf {
  import opened Wrappers
  import opened Data

  /** The number of arguments every PDF command line starts with. */
  const PrefixLength: nat := 13

  /** Plain markdown is read with relative paths rebased; every other input
      format is passed through. */
  function EffectiveFormat(format: string): (r: string)
    ensures r != format <==> format == "markdown"
    ensures r == format || r == "markdown+rebase_relative_paths"
  {
    if format == "markdown" then "markdown+rebase_relative_paths" else format
  }

  /** The arguments buildPdf hands to the converter. */
  function PdfArgs(p: Project, join: seq<string> -> string): (r: seq<string>)
    ensures |r| == PrefixLength + |p.pdf.args|
                   + (if p.tableOfContent then 1 else 0)
                   + (if |p.bibliography| > 0 then 3 else 0)
                   + (if p.pdf.biblatex then 1 else 0)
    ensures r[..PrefixLength] == ["-f", EffectiveFormat(p.format),
                                  "-t", "pdf",
                                  "--template", join([p.pdf.template, "template.tex"]),
                                  "-s",
                                  "-o", join([p.outputFolder, p.pdf.outputFolder, p.pdf.outputFileName]),
                                  "--listings",
                                  "-V lang=rs-SR",
                                  "--pdf-engine", "xelatex"]
    ensures r[PrefixLength..PrefixLength + |p.pdf.args|] == p.pdf.args
  {
    var base := ["-f", EffectiveFormat(p.format),
                 "-t", "pdf",
                 "--template", join([p.pdf.template, "template.tex"]),
                 "-s",
                 "-o", join([p.outputFolder, p.pdf.outputFolder, p.pdf.outputFileName]),
                 "--listings",
                 "-V lang=rs-SR",
                 "--pdf-engine", "xelatex"];
    var withUser := if |p.pdf.args| > 0 then base + p.pdf.args else base;
    var withToc := if p.tableOfContent then withUser + ["--toc"] else withUser;
    var withBib := if |p.bibliography| > 0 then withToc + ["--bibliography", p.bibliography, "--citeproc"] else withToc;
    if p.pdf.biblatex then withBib + ["--biblatex"] else withBib
  }

  /** The choices a PDF command line encodes after its fixed prefix. */
  datatype Options = Options(userArgs: seq<string>, toc: bool, bibliography: string, biblatex: bool)

  /** Reads the choices back from what follows the prefix, knowing how many
      user arguments there are: an optional `--toc`, an optional
      `--bibliography <file> --citeproc`, an optional `--biblatex`, in that
      order and nothing else. */
  function ReadOptions(tail: seq<string>, userCount: nat): Option<Options> {
    if |tail| < userCount then None
    else
      var rest := tail[userCount..];
      var toc := |rest| > 0 && rest[0] == "--toc";
      var afterToc := if toc then rest[1..] else rest;
      var bib := |afterToc| >= 3 && afterToc[0] == "--bibliography" && afterToc[2] == "--citeproc";
      var afterBib := if bib then afterToc[3..] else afterToc;
      var bibliography := if bib then afterToc[1] else "";
      if afterBib == [] then Some(Options(tail[..userCount], toc, bibliography, false))
      else if afterBib == ["--biblatex"] then Some(Options(tail[..userCount], toc, bibliography, true))
      else None
  }

  /** The optional groups, each present exactly when its setting asks for it. */
  function OptionalArgs(toc: bool, bibliography: string, biblatex: bool): seq<string> {
    (if toc then ["--toc"] else [])
    + (if |bibliography| > 0 then ["--bibliography", bibliography, "--citeproc"] else [])
    + (if biblatex then ["--biblatex"] else [])
  }

  /** What follows the prefix is the user arguments and then the optional groups. */
  lemma PdfArgsTail(p: Project, join: seq<string> -> string)
    ensures PdfArgs(p, join)[PrefixLength..]
            == p.pdf.args + OptionalArgs(p.tableOfContent, p.bibliography, p.pdf.biblatex)
  {
  }

  /** ReadOptions undoes the layout of the optional groups. */
  lemma {:induction false} ReadOptionsInverts(user: seq<string>, toc: bool, bibliography: string, biblatex: bool)
    ensures ReadOptions(user + OptionalArgs(toc, bibliography, biblatex), |user|)
            == Some(Options(user, toc, bibliography, biblatex))
  {
    var tail := user + OptionalArgs(toc, bibliography, biblatex);
    assert tail[..|user|] == user;
    var rest := tail[|user|..];
    assert rest == OptionalArgs(toc, bibliography, biblatex);
    var afterToc := if toc then rest[1..] else rest;
    var bibPart := if |bibliography| > 0 then ["--bibliography", bibliography, "--citeproc"] else [];
    var latexPart := if biblatex then ["--biblatex"] else [];
    assert afterToc == bibPart + latexPart;
    if |bibliography| > 0 {
      assert afterToc[3..] == latexPart;
    }
  }

  /** The command line determines the project's PDF choices: what follows
      the prefix reads back as the user arguments, the table-of-contents
      flag, the bibliography (empty when none was given) and the biblatex
      flag, so each optional group appears exactly when its setting asks
      for it, and in the order user args, toc, bibliography, biblatex. */
  lemma PdfArgsReadBack(p: Project, join: seq<string> -> string)
    ensures ReadOptions(PdfArgs(p, join)[PrefixLength..], |p.pdf.args|)
            == Some(Options(p.pdf.args, p.tableOfContent, p.bibliography, p.pdf.biblatex))
  {
    PdfArgsTail(p, join);
    ReadOptionsInverts(p.pdf.args, p.tableOfContent, p.bibliography, p.pdf.biblatex);
  }
}
