# Verified models of the document readers, stream readers and batch loops

This project models, in Dafny, the parts of the repository that hold algorithms of their own, and proves what they
are for. Each `.dfy` file is one module; the comment at its head names the program it models.

| files | what they model |
|---|---|
| `DocxTables`, `DocxMerge`, `DocxWritten` | expansion of vertically merged cells in Word tables: the grid, which cell is whose master, the loop with two column dictionaries that edits the tree in place, and the run over nested tables in reverse document order; what it does to merges as Word writes them |
| `QaDataset` | answer generation that saves two files one after the other and resumes from what is on disk: a transition system with crashes, and the program as a run of it |
| `MhtmlMarkdown`, `MhtmlFences`, `MhtmlImages` | the fence-aware Markdown normaliser of web archives, what it makes of every text block by block, and the names its images are stored under |
| `DocxPages`, `DocxPipeline`, `DocxPictures`, `DocxAssembly`, `DocxDocument` | Word text: paragraphs split into pages, pages extracted by workers that finish in any order, which picture is shown where, results put together |
| `SseStream`, `SseReaders`, `SseContinue` | the three event-stream readers of the Go client, from characters to delivered events, and two of them compared |
| `XlsxManifest`, `XlsxRepair`, `XlsxSettles`, `XlsxWritten`, `ExcelOpen`, `ExcelWritten` | repair of XLSX packages, the two substitutions on their manifests included, and the loop that opens a workbook with conversions and repairs |
| `ExcelLabels`, `XlsxMerge` | column labels from a header row, and filling merged ranges |
| `OdlNames`, `OdlAliases`, `OdlRewrite`, `OdlWritten` | the alias map for extracted images, resolving references, and rewriting links in the Markdown text |
| `MarkdownRows`, `MarkdownLines`, `MarkdownTables`, `MarkdownDocument`, `MarkdownWritten` | splitting, printing and formatting table rows, repairing tables, formatting a document |
| `WorkerLimit` | named limits on concurrent work, as interleaved steps of calls under a lock |
| `Text`, `Wrappers` | string operations and the option type they share |

Code that changes state step by step is modelled by classes and loops, each proved equal to a function of its input
or of the old state; what the program promises is then proved of that function. Protocols are state machines whose
invariants hold over every run. Where such a function rests on smaller ones that the program calls too, the modules
named `...Written` and `MhtmlFences` settle them from the outside: they take the input as a user writes it, part by
part and with the constants spelled out, and prove what comes out.

Some promises hold only under a condition. There the code is modelled as it is and the condition is stated on the
input. These results are equivalences, most with an example of the failing side:

- Cut event streams: a cut after a lone carriage return can complete an event early (`SseReaders.PrefixSafe`,
  `SseReaders.CutExample`); what follows decides whether it was early (`SseReaders.PairSafe`).
- `ContinueStream` keeps the data of a frame it passes over; it does what `KnowledgeQAStream` does on the messages
  alone exactly if that completes no event (`SseContinue.ContinueIsFilteredKnowledgeQA`, `SseContinue.StaleData`).
- When some pictures of a Word page cannot be saved, the others are in their own places exactly if no text lies
  between the place a picture takes and its own (`DocxPictures.PicturesInPlace`, `DocxPictures.PictureMoves`).
- Header labels, called unique in the documentation of `_stable_header_labels`, are unique exactly if no numbered
  name clashes with a given one (`ExcelLabels.DistinctIff`, `ExcelLabels.RepeatedLabel`).
- Table repair is idempotent exactly on settled tables (`MarkdownTables.NormalizeTwice`,
  `MarkdownDocument.FormatTableTwice`, `MarkdownDocument.FormatNotIdempotent`); a data row of colons and dashes only
  is rewritten as an alignment row (`MarkdownLines.FormatKeeps`).
- The repair of XLSX packages deletes only double-quoted self-closing mentions of a missing shared-strings part
  (`XlsxSettles.SurvivesIff`). A part name in single quotes, which XML allows, stays, and the package is rewritten
  without effect (`XlsxSettles.StuckStays`, `XlsxSettles.SingleQuotedUnchanged`). The loop that opens a workbook ends
  all the same, on every workbook within six iterations (`ExcelOpen.LoopEnds`): filling merged cells loads the package
  before the reader does, so a part that is still missing raises at once (`ExcelOpen.MissingRaises`), and the repair
  in the loop's exception handler is never used on an XLSX file (`ExcelOpen.NoSecondRepair`).
- The order of two merged ranges matters exactly if their top-left cells differ and some cell shows it
  (`XlsxMerge.OrderMatters`).
- No query is answered twice in any history exactly if query ids are distinct
  (`QaDataset.NoneTwiceIffDistinct`).

Standards the programs follow: ECMA-376 Part 1, section 17.4 (table grid and vertical merges); CommonMark 0.31,
sections 4.5 and 6.7 (fenced code blocks, hard line breaks); Extensible Markup Language (XML) 1.0, section 2.3 (either
kind of quotes around attribute values); GitHub Flavored Markdown, section 4.10 (tables); the
HTML Living Standard, section 9.2.6 (event streams), of which the readers accept a subset.

## Model

| member | source | states |
|---|---|---|
| DocxTables.PositiveIntReadsDecimal | docreader/parser/docx_merge.py:172-177 | A span written as a decimal number is read back as that number, for every number and default. |
| DocxTables.CellMaster | docreader/parser/docx_merge.py:98-150 | The cell whose content belongs in a marked cell is a restart cell at or above it, strictly above for a continuation cell. |
| DocxTables.MasterStep | docreader/parser/docx_merge.py:126-133 | A continuation cell that is filled takes the master of a cell that stands in the row directly above and shares a grid column with it. |
| DocxTables.MasterTopsChain | docreader/parser/docx_merge.py:104-148 | The master of a cell is always the top of a way up from it: continuation cells, each touching the next, ending in a restart cell. |
| DocxTables.ChainGivesMaster | docreader/parser/docx_merge.py:104-148 | Conversely, wherever such a way up exists the cell at its bottom has a master, so a continuation cell is left unfilled only if there is none. |
| DocxTables.AlignedChainMaster | docreader/parser/docx_merge.py:104-148 | In a table where no continuation cell straddles two cells above, every way up ends in the one master. |
| DocxTables.FillKeepsColumns | docreader/parser/docx_merge.py:105-146 | Filling a row moves no cell: every item starts at the same grid column and keeps its span. |
| DocxTables.FillsCountMarkers | docreader/parser/docx_merge.py:134-144 | The fill count of a table is the number of continuation markers that disappear from it. |
| DocxTables.NoRestartAfterFill | docreader/parser/docx_merge.py:117-124 | A filled table has no restart marker left in its own cells. |
| DocxTables.NoRestartNoMaster | docreader/parser/docx_merge.py:126-134 | A table without restart cells is left as it is, with fill count 0. |
| DocxTables.SameGridCellMaster | docreader/parser/docx_merge.py:104-148 | Which cell is the master of which depends on rows, spans and markers only, never on what the cells contain. |
| DocxWritten.PyIntIs | docreader/parser/docx_merge.py:172-177 | Which texts are read as a span or offset, and as which number: digits with single underscores between them, one sign or none before them, white space around. |
| DocxWritten.PositiveIntDefaults | docreader/parser/docx_merge.py:172-177 | Without an attribute, without a number in it, or with a negative one, the default counts. |
| DocxWritten.SpanReads | docreader/parser/docx_merge.py:153-159 | A cell without w:tcPr or without a span covers one column; one with a span written in decimal covers that many. |
| DocxWritten.ColumnReads | docreader/parser/docx_merge.py:162-169 | A cell starts after the columns skipped before its row and the widths of the cells before it, as written. |
| DocxWritten.MergeFilled | docreader/parser/docx_merge.py:98-150 | On tables as written: in consecutive rows a cell that starts a merge and, at the same columns, cells that go on with it. After filling all of them have the content of the first, their own spans, and no marker. |
| DocxWritten.OrdinaryMergeFilled | docreader/parser/docx_merge.py:98-159 | The ordinary case, stated on the nodes: no gridSpan and no gridBefore anywhere in those rows, cell k of the top row marked restart and cells k below it with a bare marker: all get the content of the top cell. |
| DocxWritten.UnopenedStays | docreader/parser/docx_merge.py:126-133 | A cell that goes on with a merge stays as it is, marker and all, in the first row and wherever no cell over its columns in the row above is marked. |
| DocxWritten.UnmarkedStays | docreader/parser/docx_merge.py:112-114 | A cell without a marker stays as it is. |
| DocxMerge.Document.FillItem | docreader/parser/docx_merge.py:107-146 | The body of the cell loop moves the tree in place from items before k filled to items up to k filled, and keeps the column, the dictionary of open merges, the flag and the count in step with the specification. |
| DocxMerge.Document.FillCell | docreader/parser/docx_merge.py:115-144 | One marked cell edited in place: marker removed, content replaced by the first active template of a continuation, the covered columns opened for the next row; without a template nothing changes. |
| DocxMerge.Document.FillTable | docreader/parser/docx_merge.py:98-150 | The two-dictionary loop over one table, in place in the whole tree, computes the recursively specified filled table and touches nothing else; flag and count are whether a merge starts and how many cells were filled. |
| DocxMerge.Document.FillAll | docreader/parser/docx_merge.py:85-91 | The loop over all tables, last in document order first, leaves exactly the tree that bottom-up recursion gives, and reports whether any table starts a merge and the sum of the tables' own fills. |
| DocxMerge.FillVerticalMergesInXml | docreader/parser/docx_merge.py:78-95 | A part is rewritten exactly if it is well-formed and some table starts a merge; otherwise the result is none and the count 0. |
| DocxMerge.ReverseRunIsBottomUp | docreader/parser/docx_merge.py:87-91 | For every tree of nested tables, filling tables in reverse document order is bottom-up recursion, with the same flag and total count. |
| DocxMerge.TablePathsOrdered | docreader/parser/docx_merge.py:88 | In document order no later table is an ancestor of an earlier one, so reverse order always finishes inner tables first. |
| DocxMerge.PutKeepsTable | docreader/parser/docx_merge.py:88-91 | Rewriting a table leaves every listed table outside it a table at its place. |
| DocxMerge.BottomUpKeepsGrid | docreader/parser/docx_merge.py:87-91 | Filling the tables inside a table leaves its rows, spans and markers as they were. |
| DocxMerge.NoRestartLeft | docreader/parser/docx_merge.py:85-95 | After a run no table at any depth starts a merge, inside copied content included. |
| DocxMerge.SecondRunDoesNothing | docreader/parser/docx_merge.py:78-95 | A second run changes nothing and reports (false, 0). |
| DocxMerge.CleanTreeUnchanged | docreader/parser/docx_merge.py:93-94 | A tree in which no table starts a merge is left alone. |
| QaDataset.InvNext | dataset/qa_dataset.py:237-282 | Every step (load, skip, call, failed call, either save, crash, restart) keeps the invariant that ties the two files to the run. |
| QaDataset.HistoryInv | dataset/qa_dataset.py:237-282 | The invariant holds at every moment of every history of starts, crashes and restarts from an empty directory. |
| QaDataset.FilesAlwaysConsistent | dataset/qa_dataset.py:233-282 | At every moment, also between the two saves, answer ids on disk are exactly 1..n, every pair names one of them, no two pairs name the same answer, and with distinct query ids no query is answered twice. |
| QaDataset.AttemptsBounded | dataset/qa_dataset.py:258-282 | Within one run no query position gets more than max_retries + 1 calls, none if max_retries is negative. |
| QaDataset.FinishedRunCovers | dataset/qa_dataset.py:254-282 | A run that ends without a failed query has every query on disk; with distinct query ids exactly once. |
| QaDataset.NothingLost | dataset/qa_dataset.py:267-269 | No pair on disk is ever lost, moved or given another answer by any later crashes and restarts. |
| QaDataset.NoneTwiceIffDistinct | dataset/qa_dataset.py:254-264 | No history of any crashes and restarts answers a query twice, exactly if the query ids are distinct (max_retries not negative). |
| QaDataset.DistinctCounts | dataset/qa_dataset.py:254-256 | A list has no repeats exactly if no element occurs more than once. |
| QaDataset.RunInv | dataset/qa_dataset.py:237-282 | The invariant holds along any run of the program that starts from a directory that satisfies it. |
| QaDataset.Output.GenerateAnswers | dataset/qa_dataset.py:237-282 | The program, with any replies of the model and dying at any call or save: it takes only steps of the transition system, what it puts on disk are the model's replies to its queries up to where it got, it leaves the specified files if it completes, and it completes if it gets to make as many calls and saves as the queries can take. |
| QaDataset.DiskHoldsReplies | dataset/qa_dataset.py:258-264 | Wherever the process dies, every pair on disk that it did not find there names a query that was not on disk and an answer, under its own id, whose text is the model's reply to a call for that query within the retry limit, all earlier calls for it having failed. |
| QaDataset.CompletedIff | dataset/qa_dataset.py:254-282 | After a completed run a query that was not on disk has a pair exactly if some call for it within the retry limit got a reply. |
| QaDataset.BeginsFrom | dataset/qa_dataset.py:237-252 | Without both files, or with no pair recorded, a run records what it would from nothing; otherwise it adds to the files as they are one answer and one pair at a time, for queries that are not on disk. |
| QaDataset.Output.SaveBoth | dataset/qa_dataset.py:267-269 | The two saves, answers first, are two separate steps with a crash possible before each. |
| MhtmlMarkdown.ReadPrint | docreader/parser/mhtml_parser.py:258-290 | Reading printed pieces (fenced lines; text lines with or without hard break; blank separations) gives the pieces back: the fence states of the first and the second pass simulate each other. |
| MhtmlMarkdown.NormalizedIdempotent | docreader/parser/mhtml_parser.py:251-290 | Normalising twice is normalising once, for every text, unclosed fences and mixed line endings included. |
| MhtmlMarkdown.NormalizedKeepsMeaning | docreader/parser/mhtml_parser.py:258-290 | Fenced lines are kept verbatim and in order, other non-blank lines up to trailing white space with their hard breaks, and a blank separates two neighbours after exactly if one did before; only empty lines at the end of an unclosed last fence go, none if every fence is closed. |
| MhtmlMarkdown.ClosedKeepsAll | docreader/parser/mhtml_parser.py:259-264 | If the last fence is closed, no line is lost at the end. |
| MhtmlMarkdown.NormalizedTidy | docreader/parser/mhtml_parser.py:275-290 | Outside fences no blank line of the result is first, last or next to another, and text lines end in nothing or exactly two spaces. |
| MhtmlMarkdown.OpeningFenceIgnoresTail | docreader/parser/mhtml_parser.py:292-303 | Trailing white space never makes or breaks an opening fence. |
| MhtmlMarkdown.NormalizeMarkdown | docreader/parser/mhtml_parser.py:250-290 | The line loop with its output list, pending blank and fence state computes the print of what the text says, stripped of line feeds. |
| MhtmlMarkdown.NormalizeLine | docreader/parser/mhtml_parser.py:259-288 | What one line adds to the output, and the pending blank and fence after it. |
| MhtmlFences.OpensIff | docreader/parser/mhtml_parser.py:293-303 | A line opens a fence of n times c exactly if it is at most three spaces, n times a backquote or tilde, n at least 3, and anything that does not begin with c. |
| MhtmlFences.ClosesIff | docreader/parser/mhtml_parser.py:306-313 | A line closes a fence of n times c exactly if it is at most three spaces, m times c with m at least n, and spaces and tabs. |
| MhtmlFences.ReadFenced | docreader/parser/mhtml_parser.py:259-273 | An opening line, lines none of which closes it, a closing line and any rest read as those lines verbatim, followed by the rest read outside fences. |
| MhtmlFences.ReadSource | docreader/parser/mhtml_parser.py:258-288 | What the normaliser prints for a document given block by block: fenced blocks as they stand, text lines with no trailing white space or exactly two spaces, one empty line where blank lines separate two blocks. |
| MhtmlFences.NormalizedIs | docreader/parser/mhtml_parser.py:251-290 | The same for whole texts, whichever of the three line ends follows each line; only empty lines at the end of a fence that is never closed go. |
| MhtmlFences.EveryText | docreader/parser/mhtml_parser.py:251-290 | Every text is such a document, so this settles what the normaliser makes of every text. |
| MhtmlFences.ClosedDropsNothing | docreader/parser/mhtml_parser.py:290 | If no fence is left open nothing is dropped at the end. |
| MhtmlImages.CandidateInjective | docreader/parser/mhtml_parser.py:178-184 | Different suffixes give different candidate names. |
| MhtmlImages.TakenCount | docreader/parser/mhtml_parser.py:180-184 | If the plain name and all candidates below suffix n are taken, at least n - 1 names are stored: the pigeonhole behind the end of the search. |
| MhtmlImages.SplitExtIs | docreader/parser/mhtml_parser.py:171-179 | A file name is divided before its last dot, unless everything before that is dots too. |
| MhtmlImages.ImagePathForPart | docreader/parser/mhtml_parser.py:160-184 | The search always ends with a name that is not stored, after at most one candidate more than there are stored images, with the smallest free suffix. |
| MhtmlImages.StoreImages | docreader/parser/mhtml_parser.py:70-75 | Every non-empty image part is stored under a name of its own with its own data, so no part overwrites another and the stored count is the number of non-empty parts. |
| DocxPages.PageNumbersAscend | docreader/parser/docx_parser.py:361-440 | Page numbers start at 0 and never fall along the paragraphs. |
| DocxPages.PageNumberIs | docreader/parser/docx_parser.py:361-440 | The page of a paragraph is the number of paragraphs with a page break before it, or one for each 25 in a document of more than 1000 paragraphs. |
| DocxPages.IdentifyPages | docreader/parser/docx_parser.py:344-476 | Both ways of mapping, the estimate above 1000 paragraphs and the page breaks, list for every page up to the limit exactly its paragraphs in order, and no page without paragraphs but page 0 of an empty document. |
| DocxPages.EstimatePages | docreader/parser/docx_parser.py:367-396 | The estimate of 25 paragraphs per page, up to the page limit, maps as required. |
| DocxPages.FindPages | docreader/parser/docx_parser.py:398-476 | The page-break loop with its running page, the removal of empty pages and the fallback map as required. |
| DocxPages.PageIsRun | docreader/parser/docx_parser.py:344-476 | The paragraphs of a page are the run between those of earlier and those of later pages. |
| DocxPages.PagesTile | docreader/parser/docx_parser.py:585-632 | The pages below the limit, the work list of the page workers, are in order the paragraphs 0..k-1 with no gap and no repeat. |
| DocxPages.WithinLimitProcessesAll | docreader/parser/docx_parser.py:585-632 | All paragraphs are processed exactly if the last one's page is below the limit. |
| DocxPipeline.ExtractPageContent | docreader/parser/docx_parser.py:1325-1422 | The loop over a page's paragraphs computes the specified content sequence; read from start to end it is the raw paragraphs' shown text and pictures, with no empty or adjacent text parts. |
| DocxPipeline.ReadsShownText | docreader/parser/docx_parser.py:1366-1375 | From the raw text: a paragraph of white space contributes nothing; any other its text from the first to the last character that is none, ideographic spaces read as spaces, and one line feed. |
| DocxPipeline.StreamIsRaw | docreader/parser/docx_parser.py:1358-1400 | The extracts of paragraphs read as the raw paragraphs do: the shown text of each, then its picture. |
| DocxPipeline.ContentKeepsStream | docreader/parser/docx_parser.py:1325-1422 | A page's content is exactly its paragraphs' cleaned text and pictures, in paragraph order, with no empty or adjacent text parts. |
| DocxPictures.PicturesInPlace | docreader/parser/docx_parser.py:1221-1268 | Filling the places of a page in turn with the saved files gives every saved picture in its own place, and nothing in the place of one that was not saved, exactly if for every r no text part lies between the place of the r-th picture and that of the r-th saved one. |
| DocxPictures.NoGapInPlace | docreader/parser/docx_parser.py:1221-1268 | It is so if the saves that fail, if any, come last. |
| DocxPictures.PictureMoves | docreader/parser/docx_parser.py:1221-1268 | A page of picture, text, picture whose first picture cannot be saved: the second picture appears in front of the text. |
| DocxPictures.PictureStays | docreader/parser/docx_parser.py:1221-1268 | Without the text between them the same two pictures look right, although the failed save does not come last. |
| DocxAssembly.ProcessResults | docreader/parser/docx_parser.py:862-979 | Up to sections without text the result is the rendered lines sorted by page, whether or not any line has images and whatever page number a line without content inherits. |
| DocxAssembly.UploadImages | docreader/parser/docx_parser.py:894-930 | The link map holds exactly links of uploads that succeeded, and one for every image of every line that can be uploaded. |
| DocxAssembly.RenderLines | docreader/parser/docx_parser.py:935-975 | Every line's text comes out as specified and so does its page, except that a line without content, hence without text, may carry another page number. |
| DocxAssembly.AnyOrderIsSequential | docreader/parser/docx_parser.py:803-857 | For every completion order, sorting the sections with text by page gives what handling the pages one after another gives. |
| DocxAssembly.StrictlyAscendingUnique | docreader/parser/docx_parser.py:803-857 | There is only one way to list given sections with rising page numbers. |
| DocxAssembly.CollectResults | docreader/parser/docx_parser.py:803-857 | Collecting pages as they finish, failed ones included, yields the sections of the sequential order. |
| DocxAssembly.JoinSections | docreader/parser/docx_parser.py:159-190 | The document text joins the texts of the sections that have any. |
| DocxDocument.PageLineIsWorkerLine | docreader/parser/docx_parser.py:1170-1292 | What a worker returns names only its own files, and without files its text is its text parts. |
| DocxDocument.ResultsAscend | docreader/parser/docx_parser.py:731-857 | The results of the work list have rising page numbers below the limit, and every one is a line the assembly can rely on. |
| DocxDocument.TextsAreSequential | docreader/parser/docx_parser.py:803-857 | The texts of the work list's results, taken in turn, are the texts of the pages below the limit one after another; a page the mapping does not have has no text. |
| DocxDocument.ParseDocument | docreader/parser/docx_parser.py:104-208 | From paragraphs to text: for every completion order of the workers, and whatever loading, saving or uploading fails, the text is that of handling the pages below the limit one after another, or what the simple method makes of the document if that is empty or an exception is raised. |
| DocxDocument.TextIsAllParts | docreader/parser/docx_parser.py:159-190 | The text is all parts of all pages that load, joined in page order, each picture's own link in its own place and nothing for a picture that is not saved or not uploaded, if on no such page a text part lies between the place a picture takes and its own. |
| DocxDocument.NothingFailsInPlace | docreader/parser/docx_parser.py:1221-1268 | That holds, with exactly one link for every picture, if every page loads and every picture on it is saved and uploaded. |
| DocxDocument.ContentIsInitialRun | docreader/parser/docx_parser.py:344-476 | The content of the processed pages is the shown text and the pictures of the first k raw paragraphs, each once and in order, k counting the paragraphs on pages below the limit. |
| SseStream.ScanPrinted | client/session.go:299-310 | Lines printed one per line are scanned back, then whatever follows. |
| SseStream.ScanIsComplete | client/session.go:299-310 | A stream scans as its complete lines and the rest without a line end unless that is empty, and fails exactly if a line is too long. |
| SseStream.OverflowsIff | client/session.go:300-304 | A stream has a line that is too long exactly if somewhere in it stand 4 * 1024 * 1024 characters without a line feed. |
| SseStream.ScanCrLf | client/session.go:299-310 | A line that ends in a carriage return and a line feed is scanned without either. |
| SseStream.CutLines | client/session.go:299-310 | Whatever follows a cut, the complete lines before it are scanned unchanged and the rest is scanned as the cut line goes on. |
| SseReaders.KnowledgeQAStream | client/session.go:299-353 | The reader loop delivers the events and ends as specified: parse error, callback error, terminal error frame, overlong line or normal end. |
| SseReaders.ContinueStream | client/session.go:388-434 | The same for ContinueStream, which delivers only frames whose event is message. |
| SseReaders.ProcessAgentSSEStream | client/agent.go:114-167 | The same for the agent reader, which ignores event lines and trims data. |
| SseReaders.TooLongIff | client/session.go:300-304 | A reader gives up on the length of a line only if the stream has 4 * 1024 * 1024 characters without a line feed; with them it never ends as if the stream were complete. |
| SseReaders.FieldIs | client/session.go:341-347 | Whether a line is an event name, data or ignored is settled by its first six or five characters. |
| SseReaders.AgentData | client/agent.go:160-164 | The agent reader takes the data without the white space around it, white space as Go defines it. |
| SseReaders.ReadBackPrinted | client/session.go:309-347 | Any list of events, encoded on one line each so that the decoder undoes it, printed as event:message / data: frames is read back in order by all three readers, up to the first refused or terminal one. |
| SseReaders.DeliverAllPrefix | client/session.go:330-336 | What is delivered is a prefix of the printed events that ends right after the first event the callback refuses or that is a terminal error, that one included, and is all of them otherwise. |
| SseReaders.PrefixSafe | client/session.go:309-347 | For every stream and cut point, the events delivered from the cut stream are a prefix of those from every longer stream, exactly unless the cut leaves a lone carriage return on its line while an event is complete but for its empty line. |
| SseReaders.PairSafe | client/session.go:309-347 | For one cut and one continuation: a prefix also in that case if the stream goes on with a line feed; otherwise the line that begins with the carriage return is ignored (or too long), and the reader goes on with the lines after it as it stood at the cut. |
| SseReaders.CutExample | client/session.go:309-347 | The case exists for every payload the decoder accepts: its data line, a line feed and a carriage return. |
| SseReaders.CutEvents | client/session.go:309-347 | What a cut stream delivers: the events of its complete lines, and one more in that single case. |
| SseContinue.ContinueIsFilteredKnowledgeQA | client/session.go:396-428 | ContinueStream does for every client what KnowledgeQAStream does on the stream without the frames that are not messages (same events, same end), exactly if, frame after frame with what ContinueStream has in its buffers, every message frame ends with the data it has of its own and no other frame completes an event. |
| SseContinue.ScanFiltered | client/session.go:393-434 | The stream without those frames exists: scanning it gives the remaining lines, and an overlong line if there was one. |
| SseContinue.OwnFieldsSuffice | client/session.go:396-428 | So it is on every stream whose frames carry an event line and a data line of their own. |
| SseContinue.StaleData | client/session.go:400-417 | The failing side, for every payload the decoder accepts: without a data line of its own a message frame gets the data of the frame passed over before it, and ContinueStream delivers an event that KnowledgeQAStream does not. |
| XlsxSettles.RepairXlsxBytes | docreader/parser/xlsx_repair.py:21-45 | Repair as written: for any order in which the set of names is iterated, a repaired package has the same parts and names but for shared strings and manifests, and strictly fewer repairs left to do under the condition on mentions. |
| XlsxRepair.CollectFiles | docreader/parser/xlsx_repair.py:112-119 | The dictionary collected by the rewriting loop has under every normalised name the last entry of that name. |
| XlsxManifest.DropFromManifest | docreader/parser/xlsx_repair.py:11-18 | On a manifest, tags with white space between them, the substitution deletes exactly the tags that are self-closing elements of its tag name with its attribute in double quotes and a value of its suffix. |
| XlsxManifest.DropTwice | docreader/parser/xlsx_repair.py:11-18 | On a manifest, substituting again changes nothing. |
| XlsxManifest.MentionSurvives | docreader/parser/xlsx_repair.py:96-109 | A word is still mentioned after the deletion exactly if some tag of the manifest mentions it without being such an element. |
| XlsxRepair.FilesPart | docreader/parser/xlsx_repair.py:112-119 | The same of the specified dictionary, repeated names and backslashes included. |
| XlsxWritten.ElementIff | docreader/parser/xlsx_repair.py:11-18 | What the substitution takes for an element is, in any case of letters, the tag, anything, the attribute with a double-quoted value that ends in the suffix, anything, and a slash; and every such tag it takes. |
| XlsxWritten.RewrittenIff | docreader/parser/xlsx_repair.py:21-45 | A package without a shared-strings part, its two manifests made of tags, is rewritten exactly if a tag of its content types or workbook relationships mentions shared strings and no worksheet has a cell that uses them. |
| XlsxWritten.RewrittenParts | docreader/parser/xlsx_repair.py:96-109 | Then [Content_Types].xml loses the Override declarations, xl/_rels/workbook.xml.rels the Relationship declarations, and everything else stays as it is. |
| XlsxWritten.SharedPartMoved | docreader/parser/xlsx_repair.py:88-93 | A package with one shared-strings part, its name in any case of letters, is rewritten exactly if that is not xl/sharedStrings.xml; the part is moved there unchanged and all others stay. |
| XlsxSettles.RenameParts | docreader/parser/xlsx_repair.py:88-93 | Renaming puts the misplaced part at the canonical name, removes the old name and keeps every other part byte for byte. |
| XlsxSettles.StripParts | docreader/parser/xlsx_repair.py:96-109 | Stripping rewrites the two manifest parts and keeps every other part byte for byte. |
| XlsxSettles.SurvivesIff | docreader/parser/xlsx_repair.py:96-109 | For a package with such manifests, the stripped package still mentions shared strings exactly if some tag of the two manifests mentions them without being a double-quoted self-closing Override or Relationship. |
| XlsxSettles.RepairKeeps | docreader/parser/xlsx_repair.py:21-45 | A repair keeps all parts but shared strings and manifests byte for byte; with a shared-strings part present it moves one to its place unchanged and leaves the manifests alone. |
| XlsxSettles.RepairKeepsNames | docreader/parser/xlsx_repair.py:21-45 | A repair adds and removes no part but shared-strings parts. |
| XlsxSettles.RepairProgress | docreader/parser/xlsx_repair.py:21-45 | Every repair leaves strictly fewer repairs to do, if a package without shared strings mentions them in double-quoted self-closing elements only. |
| XlsxSettles.SettledNeedsNone | docreader/parser/xlsx_repair.py:33-42 | A rewritten package without misplaced shared strings, and with the part or without mentions of it, needs no repair. |
| XlsxSettles.OneRepairSuffices | docreader/parser/xlsx_repair.py:21-45 | Under the same condition a package with at most one shared-strings part is repaired once and for all. |
| XlsxSettles.StuckStays | docreader/parser/xlsx_repair.py:41-45 | A package without shared strings that mentions them in some other tag, and does not use them, is repaired again and again into a package of the same kind. |
| XlsxSettles.UnquotedStuck | docreader/parser/xlsx_repair.py:11-18 | A package whose content types mention shared strings in a tag without double quotes is of that kind. |
| XlsxSettles.UnquotedUnchanged | docreader/parser/xlsx_repair.py:21-45 | If that tag is the only one, repairing gives back the very same package. |
| XlsxSettles.SingleQuotedUnchanged | docreader/parser/xlsx_repair.py:11-18 | So for an Override of /xl/sharedStrings.xml in single quotes, which XML allows. |
| XlsxSettles.QuotedSettles | docreader/parser/xlsx_repair.py:11-18 | With the part name in double quotes in an Override tag, in any case of letters, the package is not: the tag is deleted. |
| XlsxSettles.DoubleQuotedSettles | docreader/parser/xlsx_repair.py:11-18 | Such is the same Override in double quotes. |
| ExcelOpen.StepProgress | docreader/parser/excel_parser.py:194-243 | On every workbook, every iteration that goes on leaves strictly fewer iterations: it uses up the one conversion of the file, the conversion of an ODS file, or missing shared strings. |
| ExcelOpen.LoopEnds | docreader/parser/excel_parser.py:189-243 | From every state the loop ends within a number of iterations that its state gives, six at most. |
| ExcelOpen.NoSecondRepair | docreader/parser/excel_parser.py:216-234 | The repair that the loop keeps for a missing part is never used on an XLSX file: preparing it has been through the same loader. |
| ExcelOpen.MissingRaises | docreader/parser/excel_parser.py:182-218 | If the loader misses the shared strings of the package that the first repair leaves, the loop raises in that iteration. |
| ExcelOpen.UnquotedRaises | docreader/parser/excel_parser.py:182-218 | So it does after one iteration on a package whose only mention is in a tag without double quotes, which the repair gives back unchanged. |
| ExcelOpen.RepairedIsFound | docreader/parser/xlsx_repair.py:21-45 | A package without shared strings that mentions them in double-quoted self-closing elements only passes the loader once repaired, if the loader misses nothing that is not mentioned. |
| ExcelOpen.ReaderGetsParts | docreader/parser/excel_parser.py:182-234 | However many repairs it takes, all parts but shared strings and manifests reach the reader byte for byte, for a package that is not ODS and, with what repairs make of it, has no merged cells to fill. |
| ExcelOpen.NormalizeExcelBytes | docreader/parser/excel_convert.py:108-130 | A recognised file is returned as it is; otherwise the first conversion, over the suffixes without repeats, that yields a recognised format. |
| ExcelWritten.ZipDetected | docreader/parser/excel_convert.py:15-37 | A file that begins with PK and the bytes 3 and 4 is taken for a spreadsheet archive; one that begins otherwise is one only as an old workbook. |
| ExcelWritten.UnrecognizedConverted | docreader/parser/excel_convert.py:108-126 | An unrecognised file is replaced by the first useful of the conversions for the caller's suffix, .xlsx, .xls, .et and .csv, in that order, or by nothing. |
| ExcelWritten.PreparedIs | docreader/parser/excel_parser.py:182-186 | A file that needs no repair and has nothing to fill is opened as it is, a repaired or filled one as it was written. |
| ExcelOpen.TryReader | docreader/parser/excel_parser.py:220-243 | One attempt to open: what it opens the reader has accepted in this iteration, and if it goes on there are strictly fewer iterations left. |
| ExcelOpen.Attempt | docreader/parser/excel_parser.py:194-243 | One iteration of the loop: the same for detection, preparation and opening together, on every file; what it opens is the file it was given, prepared if XLSX, with the reader of its format: xlrd, openpyxl or odf. |
| ExcelOpen.OpenExcelFile | docreader/parser/excel_parser.py:189-243 | The loop as written ends on every workbook within six iterations, with the outcome of iterating the step, and what it returns as opened the reader accepted in the last iteration. |
| ExcelLabels.ColumnLetterValue | docreader/parser/excel_parser.py:167-168 | Column letters of different columns differ: the letters determine the number. |
| ExcelLabels.StableHeaderLabels | docreader/parser/excel_parser.py:157-173 | Labels are never empty; a column keeps its name the first time and gets the count appended from the second time on. |
| ExcelLabels.DistinctIff | docreader/parser/excel_parser.py:157-173 | The labels are pairwise distinct exactly if no name numbered from 2 up to its count is itself a column name. |
| ExcelLabels.DistinctUnlessNumbered | docreader/parser/excel_parser.py:157-173 | In particular they are if no cell of the header row ends in an underscore and a number. |
| ExcelLabels.NumberedInjective | docreader/parser/excel_parser.py:170-172 | A numbered label determines the name and the number. |
| ExcelLabels.RepeatedLabel | docreader/parser/excel_parser.py:170-172 | The header A, A_2, A gets the label A_2 twice. |
| OdlNames.NormalizePlain | docreader/parser/opendataloader_parser.py:165-172 | A plain name, bare, in angle brackets or in their entities, normalises to itself. |
| OdlWritten.NameNormalized | docreader/parser/opendataloader_parser.py:165-172 | White space, angle brackets, quotation marks of either kind and ./ around a name go, and its backslashes become slashes. |
| OdlAliases.BuildPathAliasMap | docreader/parser/opendataloader_parser.py:206-222 | The map gives for every key the last image, in order of insertion, one of whose seven spellings normalises to it, and has no other keys. |
| OdlAliases.RegisterImage | docreader/parser/opendataloader_parser.py:209-221 | One image's spellings take over their keys and leave the others alone. |
| OdlAliases.SpellingsAbsorb | docreader/parser/opendataloader_parser.py:211-219 | An image that goes by another one's name goes by all the names the other one goes by. |
| OdlAliases.MapIsFixed | docreader/parser/opendataloader_parser.py:206-222 | For plain names in any order, with any clashes of base names, every value of the map is a stored image and its own alias. |
| OdlAliases.ResolveImageRef | docreader/parser/opendataloader_parser.py:225-249 | The lookups in order, and the choice by number for any order of the set of values. |
| OdlAliases.ResolvesToImage | docreader/parser/opendataloader_parser.py:225-249 | A reference resolves to a stored image only. |
| OdlAliases.ResolveTwice | docreader/parser/opendataloader_parser.py:225-249 | The name it resolves to resolves to itself, unless it reads as a data URL and is left alone. |
| OdlWritten.SpellingResolves | docreader/parser/opendataloader_parser.py:206-249 | A link that spells an image whose file name no other image has, as path, as file name or as images/ and the file name, bare, in angle brackets or in their entities, resolves to that image. |
| OdlWritten.NumberChooses | docreader/parser/opendataloader_parser.py:240-249 | The choice by number is an image with that number in its name if there is one, otherwise, counting from one, that of the numbered images in ascending order. |
| OdlRewrite.PrintParse | docreader/parser/opendataloader_parser.py:34 | Dividing a text at its image links loses nothing. |
| OdlRewrite.ParseRewritten | docreader/parser/opendataloader_parser.py:252-267 | The rewritten text has the same links in the same places with the same alternative texts; only URLs are replaced, and no link appears or disappears. |
| OdlRewrite.RewriteTwice | docreader/parser/opendataloader_parser.py:252-267 | Rewriting what was rewritten changes nothing, for every text and every resolver whose results settle. |
| OdlRewrite.ResolverSettles | docreader/parser/opendataloader_parser.py:225-267 | For plain image names the alias map is such a resolver, and every link it rewrites names a stored image. |
| OdlRewrite.RewriteRefsTwice | docreader/parser/opendataloader_parser.py:252-267 | So rewriting twice is rewriting once for every set of plain image names. |
| OdlRewrite.ProgramRewritesTwice | docreader/parser/opendataloader_parser.py:252-267 | And it is with the program's own normalisation of references in place of any that leaves plain names alone. |
| OdlRewrite.RewriteMarkdownImageRefs | docreader/parser/opendataloader_parser.py:252-267 | The function as a whole: without images the text is returned as it is; a blank URL raises. |
| OdlWritten.DocumentRewritten | docreader/parser/opendataloader_parser.py:252-267 | A document given as text and links in turn: the text stays, and each link keeps its alternative text and gets the image its first word resolves to, or stays as it is if there is none. |
| MarkdownRows.SplitPrinted | docreader/parser/markdown_parser.py:63-74 | Splitting a printed row, indented or not, gives back the cells, for every non-empty list of trimmed cells without pipes. |
| MarkdownRows.CellsOfRow | docreader/parser/markdown_parser.py:63-74 | The cells of any row are trimmed and without pipes, and hold only characters of the row. |
| MarkdownLines.FormatTwice | docreader/parser/markdown_parser.py:138-166 | Row and alignment formatting of a line change nothing the second time. |
| MarkdownLines.FormatKeeps | docreader/parser/markdown_parser.py:138-166 | Formatting changes table rows only, keeps their indentation, and keeps their cells unless all of them consist of colons and dashes. |
| MarkdownWritten.RowFormatted | docreader/parser/markdown_parser.py:138-166 | A row written with any white space around its cells comes out with its indentation and its cells, one space on either side of each; a row of nothing but colons and dashes with three dashes in each cell and its colons. |
| MarkdownWritten.RowKinds | docreader/parser/markdown_parser.py:77-89 | Such a row is a separator exactly if each cell is three or more dashes with or without a colon at either end, and empty exactly if all cells are. |
| MarkdownWritten.SeparatorUnder | docreader/parser/markdown_parser.py:91-94 | The separator put under a header has three dashes for each of its cells. |
| MarkdownLines.SeparatorFor | docreader/parser/markdown_parser.py:91-94 | An inserted separator row is a separator row with as many cells as the row above it, already formatted. |
| MarkdownTables.NormalizeTableBlock | docreader/parser/markdown_parser.py:96-108 | The popping and inserting on one table compute the specified table. |
| MarkdownTables.NormalizeSpuriousTablePrefixes | docreader/parser/markdown_parser.py:110-126 | The index loop over the lines normalises every maximal run of table rows and copies the other lines. |
| MarkdownTables.NormalizeKeeps | docreader/parser/markdown_parser.py:110-126 | The lines outside tables and the data rows are kept, in order, for every document. |
| MarkdownTables.NormalizeDelimits | docreader/parser/markdown_parser.py:103-108 | Every table of two or more rows in the result has a separator as its second row. |
| MarkdownTables.BlockShape | docreader/parser/markdown_parser.py:97-108 | A normalised table is the end of the original one with at most the separator for its first row put in. |
| MarkdownTables.BlockTwice | docreader/parser/markdown_parser.py:97-108 | Normalising a table again changes nothing exactly if what is left after its prefix begins with a data row, is empty, or begins with standard separators that dropping one and inserting one reproduces. |
| MarkdownTables.NormalizeTwice | docreader/parser/markdown_parser.py:110-126 | Normalising a document again changes nothing exactly if this holds of every table. |
| MarkdownTables.NotIdempotent | docreader/parser/markdown_parser.py:99-108 | Of an empty row, a separator, an empty row and a data row, normalising leaves the second empty row on top. |
| MarkdownTables.NotIdempotentAgain | docreader/parser/markdown_parser.py:99-108 | Normalising that again takes the empty row away. |
| MarkdownDocument.FormatTableContent | docreader/parser/markdown_parser.py:128-167 | format_table: the result is lines with the document's text outside tables and its formatted data rows in order, every longer table delimited, and formatting it again changes nothing exactly if all formatted tables are settled. |
| MarkdownDocument.FormatTableTwice | docreader/parser/markdown_parser.py:128-167 | Formatting a document again changes nothing exactly if every table of its formatted lines is settled, as it is if the row left after the prefix is a data row. |
| MarkdownDocument.FormatNotIdempotent | docreader/parser/markdown_parser.py:128-167 | A document that is not settled, spelled out: an empty row, an alignment row, an empty row and a row of data, one cell each. Formatting leaves the second empty row and an alignment row above the data, formatting again leaves the data only. |
| MarkdownDocument.FormatTableKeeps | docreader/parser/markdown_parser.py:128-167 | The result has the non-table lines of the document and the data rows of its formatted lines, in order, and every table of two or more rows is delimited. |
| MarkdownDocument.InsertedCells | docreader/parser/markdown_parser.py:105-107 | An inserted separator has the same cell count as the row above it. |
| WorkerLimit.InvStep | docreader/parser/concurrency.py:12-39 | Every step of every call keeps the invariant: one limiter per name made under the lock, slots conserved, no overflow. |
| WorkerLimit.SlotsConserved | docreader/parser/concurrency.py:12-39 | In every interleaving the free slots of a name's limiter and the calls inside its body add up to the size the first caller gave, and no release exceeds the bound, whatever bodies raise. |
| WorkerLimit.NoSlotLost | docreader/parser/concurrency.py:35-39 | A call that waits while no call is inside can always go on. |
| WorkerLimit.FirstSizeStays | docreader/parser/concurrency.py:12-18 | In every run a name keeps its semaphore once it has one, and the size of that semaphore is what the first call for the name asked for, whatever later callers ask for. |
| WorkerLimit.UnlimitedTouchesNothing | docreader/parser/concurrency.py:29-31 | In every interleaving a call with max_workers <= 0 changes neither the lock, the registry, a count nor another call: leaving its steps out gives the same run, and it never waits. |
| WorkerLimit.Registry.GetLimiter | docreader/parser/concurrency.py:12-18 | The registry code under the lock changes dictionary and semaphores as the steps look up, make and register do. |
| WorkerLimit.Registry.Release | docreader/parser/concurrency.py:38-39 | Releasing changes the count as the step does and never overflows. |
| XlsxMerge.Worksheet.FillRange | docreader/parser/xlsx_merge.py:29-33 | The two inner loops set every cell of a range to the value its top-left cell had, and nothing else. |
| XlsxMerge.Worksheet.FillMerged | docreader/parser/xlsx_merge.py:28-34 | The loop over the ranges of a sheet fills one after the other and leaves none merged. |
| XlsxMerge.CoveredFilled | docreader/parser/xlsx_merge.py:28-33 | With disjoint ranges every covered cell ends up with the value its range's top-left cell had at the beginning. |
| XlsxMerge.OutsideKept | docreader/parser/xlsx_merge.py:28-33 | Every other cell is unchanged. |
| XlsxMerge.AnyOrder | docreader/parser/xlsx_merge.py:28 | The order in which disjoint ranges are visited does not matter. |
| XlsxMerge.OrderMatters | docreader/parser/xlsx_merge.py:28-33 | For any two ranges, overlapping or not, the order matters exactly if the values of their top-left cells differ and some cell shows it: in one range only whose top-left cell the other covers, or in both when neither or each covers the other's top-left cell. |

## Left out

- DocxMerge.Document.FillAll: the ZIP part selection around it and XML text are not modelled; an element is named by its path, so identity and aliasing of elements appear only as paths, and `w:tcPr` and `w:trPr` are kept apart from the other children.
- DocxTables.PositiveIntReadsDecimal: integers are read from ASCII text; other Unicode decimal digits that `int()` accepts are not modelled.
- QaDataset.Output.GenerateAnswers: each save is atomic, files hold exactly the records saved, and the model's replies are an arbitrary function of query and attempt; the parquet format and the sampling commands are not modelled.
- MhtmlImages.ImagePathForPart: the file name taken from a URL and the extension for a content type are inputs, and a generated id is any unused one.
- MhtmlMarkdown.NormalizeMarkdown: the conversion from HTML before it is not modelled.
- DocxDocument.ParseDocument: what the simple method makes of the document and whether an exception leads to it are inputs; the tables extracted beside the text, which the text does not use, are not modelled; the results list holds at most one line per page, as the workers return.
- DocxPictures.PicturesInPlace: pixels, scaling and temporary files are not modelled; saving is an arbitrary function of page and picture number.
- DocxAssembly.UploadImages: uploading is a function of the path, so a file that cannot be uploaded cannot be so later in the same run; deleting temporary files is left out.
- SseReaders.KnowledgeQAStream: the HTTP request, the status check and logging are not modelled; a callback may accept or refuse depending on all events it has seen, and a line is a sequence of characters rather than bytes.
- SseReaders.ReadBackPrinted: JSON is an abstract pair of encoder and decoder; of the printed events it is required that the decoder undoes the encoding, which is one line, shorter than the scanner's limit and without white space around it.
- XlsxSettles.RepairXlsxBytes: ZIP compression and dates are not modelled, and the search for a shared-string cell is an arbitrary predicate. Lower case, and case-insensitive matching in the two substitutions, are those of ASCII letters, the only ones in what is searched for.
- XlsxWritten.RewrittenIff: stated for packages that have both manifests and part names without backslashes; what holds of all packages is stated in `XlsxSettles`.
- XlsxManifest.DropFromManifest: the substitutions are modelled on all texts; what is proved of them is about manifests made of tags without angle brackets inside, comments and quoted `>` excluded, whose attribute quotes are closed in the tag, with nothing but white space and a byte order mark between tags.
- ExcelOpen.OpenExcelFile: pandas, openpyxl and LibreOffice are arbitrary functions of the iteration and the file. Assumed of them: filling merged cells and the openpyxl reader load a package with the same loader, so that where declared shared strings are missing the filling raises, and only there the reader does; converting an ODS file does not yield one; a workbook saved after filling has the shared strings it declares and is not ODS; and shared-strings parts have no say in the format of a package. Exceptions are one outcome, whatever they say.
- ExcelLabels.StableHeaderLabels: whether a cell calls an image function and what `str()` shows are inputs; openpyxl's upper limit on column numbers is not modelled. Rows joined into chunks are left out: reading the loop settles them.
- XlsxMerge.Worksheet.FillMerged: charts, and saving the workbook, are not modelled.
- XlsxMerge.OrderMatters: cells are a map from positions to values. openpyxl keeps read-only cells without a value inside a merge until it is undone, so what it does with overlapping ranges beyond setting values is not modelled.
- OdlAliases.MapIsFixed: stated for plain names (no white space, quotes, backslashes, angle brackets, ampersands or closing parentheses, not beginning with `./`); `html.unescape` is an arbitrary function that leaves text without ampersands alone and decodes the two entities around such a text, and the number in a name an arbitrary function of it.
- MarkdownDocument.FormatTableContent: the two patterns are modelled as predicates on lines, which they never cross.
- In `MarkdownTables` the row tests are parameters, so that its laws hold of any row grammar; `MarkdownDocument` puts in those of the program.
- WorkerLimit.SlotsConserved: a call is one use of the limiter; threads and nesting of calls within a thread do not matter to it, and the fairness of waiting is not modelled.
- The rest of the Go client, the MCP server, the desktop shell, command lines and configuration: network clients and plumbing without algorithms of their own.
- `_convert_table_to_html`: its result is not used by the Word text.
- Parser registry, parser chains, exit codes: each is settled by reading one branch.
- TLS, tokens and path allow-lists: not the subject here.
