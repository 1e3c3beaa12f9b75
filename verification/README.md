# author: HTML post-processing, PDF command line and watch bookkeeping

`author` is a command-line tool that builds a book from Markdown sources by
running pandoc. This project models in Dafny the parts of it that decide
things. Everything it does through the operating system is left out. The
modelled parts are:

- **Html** (`html.dfy`): the parsed HTML tree as an immutable value, plus the
  three attribute helpers of `utils/html.go`. The post-processing pass uses
  `GetHtmlId` and `FindOrAppendAtribute`; `IsHtmlIdEquals` is modelled
  alongside them:
  - `IsHtmlIdEquals` checks whether any `id` attribute has a given value.
  - `GetHtmlId` returns the value of the first `id` attribute.
  - `FindOrAppendAtribute` returns the attribute slot that a caller then
    writes into.
- **Dates** (`dates.dfy`): the three layouts the date rewriter passes to
  Go's `time` package:
  - parsing `2006-01-02`;
  - formatting `2006`;
  - formatting `02.01.2006.`.
- **PostProcess** (`postprocess.dfy`): the rewrite of the generated HTML
  page, done as a pre-order walk:
  - An element whose first `id` is `author-toc` is handed to the TOC
    styler. It adds Bootstrap class tokens to `ul`, `li` and `a`.
  - An element whose first `id` is `author-body` is handed to the body
    styler. It gives every `img` a `max-width` style.
  - An element whose first `id` is `author-date` or `author-copyright-year`
    has the date text of its first child rewritten. The walk then continues
    into it.
  - Every other node is descended.
- **Data** (`data.dfy`): the project configuration read from
  `project.json`.
- **Pdf** (`pdf.dfy`): the argument list handed to pandoc for the PDF
  build.
- **Watcher** (`watcher.dfy`): the bookkeeping of `author watch`:
  - target filtering by the `--html`/`--pdf` switches;
  - the source-to-modification-time map;
  - the reload of `project.json` when it changes;
  - the change detection that decides whether a build starts.

Operations are pure functions on values. Three things the Go code obtains
from the system are parameters of the model instead:
- the result of loading `project.json`;
- a file's modification time (an `Option`, or a function from path to
  time);
- `path.Join` (the `join` parameter of `Pdf.PdfArgs`).

Times are integers: `0` stands for Go's zero `time.Time` and `>` stands for
`time.After`.

### Behaviour worth noting

- The body styler (`postProcessHtmlBody`) styles `img` only. It sets the
  `style` of every `img`, and it matches `h1` but does nothing with it.
- The date rewriter reads the first child's `Data` whatever that child's
  type is.
- The TOC styler also styles the marker element itself.
- `FindOrAppendAtribute` looks for an attribute whose key is `id` and whose
  value is the requested key. It never finds an existing attribute by its
  own key. Callers therefore append a second `class`/`style` attribute to
  elements that already have one. When an element has `id="class"` (or
  `id="style"`), the text is written into that `id` attribute instead. The
  model keeps this behaviour as written:
  - the extra attribute is shown by `Html.ExistingKeyNotFound`,
    `PostProcess.TocStylingAccumulates` and
    `PostProcess.BodyStylingAccumulates`;
  - the overwritten `id` is stated for every node by
    `PostProcess.AppendToSlot` and `PostProcess.SetSlot`, and shown on
    examples by `PostProcess.IdSlotOverwritten`.

## Model

| member | source | states |
|---|---|---|
| Html.AnyIdFrom | utils/html.go:31-37 | the scan answers true exactly when some attribute at or after the start position is `id` with the given value |
| Html.IsHtmlIdEquals | utils/html.go:26-38 | a nil node is never matched; for a node, true exactly when ANY of its `id` attributes carries the value, not only the first |
| Html.IdFrom | utils/html.go:41-47 | the scan yields the value of the first `id` attribute at or after the start position, or "" when there is none |
| Html.GetHtmlId | utils/html.go:40-48 | "" when the node has no `id` attribute; otherwise the value of the FIRST `id` attribute, later ones ignored |
| Html.MatchFrom | utils/html.go:51-55 | the scan finds the first position holding `id="key"`, or reports that no position from the start on does |
| Html.FindOrAppendAttribute | utils/html.go:50-63 | the returned index is always in bounds; with an `id="key"` attribute the node is unchanged and the index is the first such attribute; otherwise exactly `key=""` is appended and its index returned; type, tag and children never change |
| Html.IdLookupsAgree | utils/html.go:26-48 | with at least one `id` attribute, IsHtmlIdEquals accepts what GetHtmlId reports; with none, IsHtmlIdEquals rejects every value, including the "" GetHtmlId reports |
| Html.FirstIdIndex | utils/html.go:41-45 | when some attribute is an `id`, there is a first one |
| Html.LaterIdsIgnored | utils/html.go:40-48 | an element with `id="a"` then `id="b"` reports "a", though IsHtmlIdEquals accepts "b" |
| Html.ExistingKeyNotFound | utils/html.go:50-63 | an element with `class="btn"` asked for `class` gets a second, empty `class` attribute at index 1 |
| Dates.ParseIso | build/html.go:214-217 | a successful parse needs the exact `DDDD-DD-DD` shape and yields a real calendar date (month 1..12, day within the month, leap years by the Gregorian rule) |
| Dates.FormatAfterParse | build/html.go:214-224 | for a string that parses, formatting `2006` gives its first four characters, formatting `02.01.2006.` rearranges its digits into `DD.MM.YYYY.`, and formatting `2006-01-02` gives the string back |
| Dates.ParseAfterFormat | build/html.go:214 | every valid date, formatted as `2006-01-02`, parses back to itself |
| Dates.FormatYear | build/html.go:220 | formatting `2006` gives exactly four digits whose value is the year, zero-padded |
| Dates.FormatDotted | build/html.go:224 | formatting `02.01.2006.` gives eleven characters: two digits worth the day, a period, two digits worth the month, a period, four digits worth the year, a period |
| Dates.ParseExamples | build/html.go:214-217 | `2024-05-01` and the leap day `2024-02-29` parse; `2023-02-29`, `2024-13-01` and `N/A` are errors |
| PostProcess.AppendToSlot | build/html.go:177-184 | `Val += text` on the slot for `key`: the first `id="key"` attribute becomes `id="key"+text`, or `key="text"` is appended when there is none; nothing else about the node changes |
| PostProcess.SetSlot | build/html.go:197-198 | `Val = text` on the slot for `key`: the first `id="key"` attribute becomes `id="text"`, or `key="text"` is appended; nothing else about the node changes |
| PostProcess.MarkerAt | build/html.go:146-165 | a non-element, or an element without any `id`, is no marker; otherwise the marker is named by the FIRST `id` attribute's value, later ones ignored |
| PostProcess.StyleToc | build/html.go:173-191 | the TOC styler keeps the node's type, tag and number of children |
| PostProcess.TocStyled | build/html.go:173-191 | at every node of a TOC subtree, the marker included and non-elements descended: a `ul`, `li` or `a` element gets `nav flex-column fixed-column`, `nav-item` or `nav-link` appended to its class slot; every other node keeps its attributes; no type or tag changes |
| PostProcess.StyleBody | build/html.go:193-206 | the body styler keeps the node's type, tag and number of children |
| PostProcess.BodyStyledHolds | build/html.go:193-206 | every `img` reached through element ancestors has its style slot set to `max-width: 100%;`; other elements keep their attributes, `h1` included; a non-element node and everything below it are left exactly as they were |
| PostProcess.BodyStylingAccumulates | build/html.go:196-198 | styling is not idempotent: an `img` without `id="style"` gets one `style` attribute on the first run and a second on the next |
| PostProcess.TocStylingAccumulates | build/html.go:176-184 | likewise, a `ul`/`li`/`a` without `id="class"` gets one more `class` attribute per TOC styling run |
| PostProcess.RewriteDate | build/html.go:208-225 | no children, or a first child that is no date: nothing changes; otherwise only the first child's `Data` changes, to the year alone or to the digits rearranged as `DD.MM.YYYY.`; the marker's own type, tag and attributes never change |
| PostProcess.Dated | build/html.go:159-165 | a date or copyright-year marker has at most its first child's `Data` replaced, and only when that `Data` was a date; its other children and its own type, tag and attributes are kept; any other node is unchanged |
| PostProcess.Walk | build/html.go:145-171 | the walk keeps the root's type, tag and number of children |
| PostProcess.DateMarkerWalked | build/html.go:159-170 | for every date (copyright-year) marker whose first child's `Data` is a date, that `Data` becomes `DD.MM.YYYY.` (the year alone) and the rewritten child is then walked, as are all other children; without a date the children are walked unchanged; the marker keeps its tag and attributes |
| PostProcess.WalkWithoutMarkers | build/html.go:145-171 | a tree in which no element's first `id` is a marker comes out of the pass unchanged |
| PostProcess.WalkKeepsShape | build/html.go:145-225 | the pass keeps every node's type, every child count and child order; the only `Data` it changes is `Data` that was a date |
| PostProcess.WalkKeepsShapeFrom | build/html.go:159-170 | the same holds when the walk starts from a node whose date `Data` was just rewritten, which is how a date marker's first child is walked |
| PostProcess.TocMarkerHandedOff | build/html.go:149-152 | an element whose first `id` is `author-toc` is handed whole to the TOC styler: styled node by node, and no `Data` below it changes, a nested date marker included |
| PostProcess.BodyMarkerHandedOff | build/html.go:154-157 | an element whose first `id` is `author-body` is handed whole to the body styler, and no `Data` below it changes |
| PostProcess.WalkKeepsAttrs | build/html.go:145-171 | in a tree with no TOC or body marker, no attribute anywhere changes |
| PostProcess.WalkKeepsAttrsFrom | build/html.go:159-170 | the same holds when the walk starts from a node whose date `Data` was just rewritten |
| PostProcess.WalkDescends | build/html.go:159-170 | at any node that is not a TOC or body marker, the walk keeps the (possibly date-rewritten) node's attributes and walks each of its children in place |
| PostProcess.IdSlotOverwritten | build/html.go:182-198 | an `a` carrying `id="class"` ends up with `id="classnav-link"` and no `class`; an `img` carrying `id="style"` ends up with `id="max-width: 100%;"` and no `style` |
| PostProcess.CopyrightYearExample | build/html.go:163-165 | a copyright-year marker containing `1999-12-31` ends up containing `1999` |
| PostProcess.DateExample | build/html.go:159-170 | a date marker containing `2024-05-01` ends up containing `01.05.2024.`, and the walk continues into it, so a copyright-year marker inside it is rewritten too |
| PostProcess.NotADateExample | build/html.go:214-217 | a date marker containing `N/A` is left unchanged |
| PostProcess.TocExample | build/html.go:149-152 | inside a TOC the `li` is styled while a nested date marker's text is not rewritten |
| Pdf.EffectiveFormat | build/pdf.go:32-35 | the format changes exactly when it is `markdown`, and then to `markdown+rebase_relative_paths` |
| Pdf.PdfArgs | build/pdf.go:31-66 | the argument list is the 13-item prefix (format, pdf target, joined template path, standalone, joined output path, listings, language, xelatex engine), then the user arguments, and its length counts exactly the optional groups that are switched on |
| Pdf.PdfArgsTail | build/pdf.go:48-66 | after the prefix come the user arguments, then `--toc`, the `--bibliography <file> --citeproc` group and `--biblatex`, each present only when its setting asks for it |
| Pdf.ReadOptionsInverts | build/pdf.go:52-66 | the optional groups can be read back unambiguously after any user arguments |
| Pdf.PdfArgsReadBack | build/pdf.go:48-66 | what follows the prefix determines the project's user arguments, toc flag, bibliography (empty when unset) and biblatex flag |
| Watcher.NewWatcher | watch/watcher.go:41-48 | a new watcher has the given configuration, no project, is consistent, and no poll of it starts a build |
| Watcher.FilterTargets | watch/watcher.go:64-72 | every `html` target is dropped when html is not watched, every `pdf` target when pdf is not watched, and every other occurrence is kept, counted per target |
| Watcher.FilterTargetsAppend | watch/watcher.go:64-72 | the filter keeps order: filtering a concatenation concatenates the filtered parts |
| Watcher.FilterTargetsIdempotent | watch/watcher.go:64-72 | filtering an already filtered target list changes nothing |
| Watcher.InitialSources | watch/watcher.go:74-77 | the source map has exactly the project's sources as keys, each at the zero time |
| Watcher.LoadProjectConsistent | watch/watcher.go:50-80 | after any successful load the targets are already filtered and the watched sources are exactly the project's sources |
| Watcher.LoadProject | watch/watcher.go:50-80 | a failed load or stat changes nothing; otherwise the project is replaced with its targets filtered, the project's modification time recorded and the sources reset to the zero time |
| Watcher.ReloadProject | watch/watcher.go:90-102 | a failed stat, or a project.json not modified after the recorded time, changes nothing; a newer one is loaded, and a failed load again changes nothing |
| Watcher.Advance | watch/watcher.go:106-112 | after a poll the same sources are recorded, each at a time no earlier than before or than observed, and equal to one of the two |
| Watcher.RunBuild | watch/watcher.go:104-114 | each recorded time becomes the observed one exactly when that is later, and a build starts exactly when some source was modified after its recorded time, whatever order the map is visited in |
| Watcher.PollAgainIsQuiet | watch/watcher.go:106-112 | a second poll that observes the same times starts no build |
| Watcher.TimesNeverDecrease | watch/watcher.go:106-112 | over any sequence of polls the recorded sources stay the same and no recorded time decreases |
| Watcher.IterationKeepsConsistent | watch/watcher.go:82-112 | one iteration of the watch loop, reload then poll, keeps the watcher consistent: no source is watched before a project is loaded, and afterwards the targets stay filtered and the watched sources are exactly the project's sources |
| Watcher.LoadThenPoll | watch/watcher.go:74-77 | after a (re)load, the next poll builds exactly when some source has a modification time after the zero time |

## Left out

- The I/O around the pass is not modelled: reading and parsing the generated page, rendering and writing it back (`postProcessHtml`), and copying the HTML assets. They are file-system work; the model starts from the parsed tree and ends with the rewritten one.
- The pandoc subprocess and the creation of the output folder (`os.MkdirAll`) in `buildPdf` are not modelled: they are system calls. Only the argument list is modelled.
- The argument list of `buildHtml` is not modelled: it reads project fields that `data/project.go` does not declare, so it cannot be stated against the configuration modelled here.
- `path.Join` is not modelled. It is the `join` parameter, so the paths appear as joins of the right components and no claim is made about cleaning them.
- Dates.ParseIso: the behaviour of Go's `time.Parse` is written out for the one layout used. It has a 4-digit year, 2-digit month and day, range checks, and the proleptic Gregorian leap rule. It is stated from Go's documented behaviour, because the `time` package is not part of this model.
- `data.LoadProject` (JSON decoding) is not modelled: its result is an input. `utils.GetFileModTime` and the printing helpers of the `utils` package are not part of this model either. Modification times are inputs too.
- Watcher.RunBuild: the build it starts (`build.BuildProjectRun`) and the messages it prints are not modelled. The method returns the rebuild decision instead. The stat error it discards is not modelled: `observed` may return any time for any file, whatever a failed stat yields.
- The watch loop (`run`, with its sleep) is not modelled as a loop: it is endless and timed. `IterationKeepsConsistent` covers one iteration and `TimesNeverDecrease` any finite sequence of polls. The `Watch` launcher and the command-line and TUI layers are left out too.
- The `Namespace` field of HTML attributes is not modelled. No modelled code reads or writes it.
- Node identity and parent/sibling pointers are not modelled: the tree is a value. The pass never adds, removes or reorders nodes (WalkKeepsShape), so nothing is lost.
