# According-to-AI bookkeeping, modelled in Dafny

This project models the deterministic bookkeeping around the According-to-AI
speech pipeline and proves properties of it. The pipeline records a sales
call, diarizes and transcribes it, evaluates the diarization, analyses the
transcript with a language model, and mails and prints a report. Models,
audio, the network and the file system stay outside the model and enter as
parameters. What is modelled:

- **Refiner** (`identify_speakers.dfy`, module `IdentifySpeakers`).
  `refine_diarization` drops segments shorter than 0.25 s. It renames the
  surviving raw labels `SPEAKER_00`, `SPEAKER_01`, … in order of first
  appearance. The method keeps the source loop and is proved equal to a
  declarative description.
- **Transcript builder** (`transcript.dfy`, module `Transcript`).
  - An abstract recogniser gives each segment's statement.
  - Empty statements and statements containing "Error" are dropped.
  - Consecutive statements of one speaker are merged.
  - The result is wrapped in the fixed meeting record.
- **RTTM reader and timeline JER** (`metrics.dfy` and `timelines.dfy`,
  modules `Metrics` and `Timelines`).
  - The reader takes fields by fixed position from the lines of a NIST RTTM
    file (Appendix A of the NIST RT-09 evaluation plan).
  - The batch loop evaluates every `.rttm` reference.
  - The JER is one minus the Jaccard index of the two supports: their
    common time over their combined time.
  - Supports, crops and unions are a small interval algebra over exact
    `real` times.
- **Per-file driver** (`pipeline.dfy`, module `Pipeline`): base names and
  output paths, step order and early stops, and the `.wav` filter.
- **Transcript text utilities** (`data_preprocessing.dfy`, module
  `DataPreprocessing`):
  - line-based chunking with a length limit;
  - the speaker registry that lives as long as the program (a class);
  - first-occurrence de-duplication;
  - topic sanitisation and the labelled-transcript file name.
- **Conversation chunking** (`analysis.dfy`, module `Analysis`).
- **Email rules** (`email.dfy`, module `Email`): score extraction, feedback
  band, optional details block, subject, body and recipient choice.
- **Report ids** (`order_function.dfy`, module `OrderFunction`): the per-day
  counter (a class whose field is the count file) and ids of the form
  `YYYYMMDD-NNNN`.
- **PDF report** (`generate_pdf.dfy`, module `GeneratePdf`): the report as an
  append-only list of styled blocks (a class), filled by the recursive walk
  over the nested analysis dict.
- **Review entry point** (`review_main.dfy`, module `ReviewMain`): the
  new-file picker over `(name, mtime)` pairs and the JSON shape check.

Shared vocabulary:

- `Common`: options, whitespace, strip, lower-casing, decimal digits,
  zero padding, join/split and words.
- `Annotations`: segments and labelled tracks.
- `JsonValues`: a JSON datatype whose objects keep member order, as a
  Python dict does.

Error paths follow the source operation by operation. Where a source
function reports an error, or ends the program with `exit(1)`, the model
returns `None` or an error constructor (`Failed`, `Skipped`, `Aborted`,
`Unloadable`, `MissingHypothesis`). "## Left out" names the few operations
whose crash path is excluded by a precondition instead.

## Model

| member | source | states |
|---|---|---|
| Common.Strip | src/data_preprocessing.py:111 | `str.strip()` never lengthens a text and leaves no whitespace at either end |
| Common.StripIsTrim | src/data_preprocessing.py:111 | the stripped text is the slice of the text between a whitespace prefix and a whitespace suffix, so with `Strip`'s own contract it is fixed for every input, and a text of whitespace only strips to "" |
| Common.Lower | src/data_preprocessing.py:111 | `str.lower()` keeps the length, lowers each character in place and leaves no upper-case letter |
| Common.PadNat | pdfGen/orderfunction.py:39 | the `:04d` padding is all decimal digits and at least the requested width |
| Common.PadNatRoundTrip | pdfGen/orderfunction.py:39 | the zero-padded text reads back as the number it formats |
| Common.PadNatInjective | pdfGen/orderfunction.py:39 | different counts give different padded texts |
| Common.SplitOn | src/data_preprocessing.py:35 | `str.split(sep)` gives at least one piece and no piece contains the separator |
| Common.SplitOnJoin | src/data_preprocessing.py:35 | joining the pieces with the separator gives the original text back |
| Common.SplitOnFirstPiece | MailHandling/Email.py:19 | `split("/")[0]` of `x + "/" + rest` is `x` when `x` has no slash |
| Common.PathJoinShape | main.py:25-56 | `os.path.join(a, b)`: an absolute `b` replaces `a`; otherwise the result starts with `a`, ends with `b`, and one slash separates them unless `a` is empty or already ends in one |
| Common.Words | metrics_calculation.py:19 | `str.split()` gives non-empty pieces without whitespace |
| Common.WordsDecompose | metrics_calculation.py:19 | the text is its words interleaved with whitespace runs, a non-empty run between any two words: the words are exactly the maximal non-whitespace runs, in order |
| Common.WordsOfJoin | metrics_calculation.py:19 | words joined by single spaces split back into the same words |
| IdentifySpeakers.CanonicalNameInjective | identify_speakers.py:59 | distinct counters give distinct `SPEAKER_NN` names |
| IdentifySpeakers.Survivors | identify_speakers.py:55-56 | every surviving track is an input track that lasts at least 0.25 s |
| IdentifySpeakers.FirstAppearance | identify_speakers.py:58-60 | the distinct labels, each once, and exactly the labels that occur |
| IdentifySpeakers.RefineDiarization | identify_speakers.py:46-64 | the loop with its growing mapping and counter returns exactly the declarative refinement (filter, then number labels by first survival) |
| IdentifySpeakers.Refined | identify_speakers.py:55-62 | the declarative refinement: one output track per survivor, in order, with the survivor's segment, and no output segment shorter than 0.25 s |
| IdentifySpeakers.SurvivorMembership | identify_speakers.py:55-62 | a track is in the output's source list iff it is in the input and long enough |
| IdentifySpeakers.SurvivorsConcat | identify_speakers.py:54-62 | filtering keeps input order: it distributes over concatenation |
| IdentifySpeakers.ShortTrackIgnored | identify_speakers.py:55-60 | a short track neither takes a name nor advances the counter: the result is as if it were absent |
| IdentifySpeakers.AllShortGivesEmpty | identify_speakers.py:50-55 | an input of short segments only yields an empty annotation |
| IdentifySpeakers.NamedLabels | identify_speakers.py:55-60 | a raw label gets a canonical name iff some long track carries it |
| IdentifySpeakers.FirstSurvivorIsSpeaker00 | identify_speakers.py:58-60 | the first surviving track is labelled `SPEAKER_00` |
| IdentifySpeakers.KthLabelIsSpeakerK | identify_speakers.py:58-62 | a surviving track is named `SPEAKER_k` iff its raw label is the k-th distinct surviving label |
| IdentifySpeakers.SameRawLabelSameName | identify_speakers.py:58-62 | two surviving tracks share a raw label iff they share a canonical label |
| IdentifySpeakers.DistinctOutputLabels | identify_speakers.py:58-60 | the output labels in first-appearance order are exactly `SPEAKER_00` … one per distinct surviving raw label |
| IdentifySpeakers.FirstAppearanceOrder | identify_speakers.py:58-60 | distinct labels are numbered in the order of their first occurrence |
| Transcript.SegmentStatement | transcript.py:11-35 | an exception or a zero-sample window gives "", otherwise the stripped recognised text |
| Transcript.RecognisedDialog | transcript.py:60-64 | at most one entry per track, and every entry has a non-empty statement without "Error" |
| Transcript.RecognisedMembership | transcript.py:61-64 | an entry is in the dialog iff some track yields it with a kept statement |
| Transcript.RecognisedConcat | transcript.py:61-64 | entries keep `itertracks` order: the dialog distributes over concatenation |
| Transcript.SilentSegmentDropped | transcript.py:22-24 | a segment whose window is empty or whose recognition raised adds no entry |
| Transcript.Runs | transcript.py:45-51 | the runs are non-empty, and there are none exactly when the dialog is empty |
| Transcript.JoinedRuns | transcript.py:49 | one entry per run: the run's speaker and its statements joined by single spaces |
| Transcript.MergeConsecutiveStatements | transcript.py:38-53 | the loop returns the merged dialog, and an empty dialog gives an empty list |
| Transcript.MergedIsJoinedRuns | transcript.py:45-51 | `Merged`, the entry-by-entry merge, equals the run-based definition: each merged entry is one maximal same-speaker run with its statements joined by single spaces, in order |
| Transcript.RunsPartition | transcript.py:45-51 | the runs concatenate back to the dialog |
| Transcript.RunsAreMaximal | transcript.py:47-51 | every run has one speaker and adjacent runs have different speakers |
| Transcript.MergedHasNoAdjacentSame | transcript.py:47-51 | no two adjacent merged entries have the same speaker |
| Transcript.MergedEmpty | transcript.py:42-43 | merging an empty dialog gives an empty list |
| Transcript.MergedLastSpeaker | transcript.py:47-51 | the last merged entry belongs to the last input entry's speaker |
| Transcript.MergedSpeakers | transcript.py:45-51 | the merged speaker sequence is the input speaker sequence with consecutive repeats collapsed |
| Transcript.MergedKeepsText | transcript.py:49 | merging loses no words: all statements joined by spaces read the same before and after |
| Transcript.MergedFixesAlternating | transcript.py:47-51 | a dialog that already alternates speakers is unchanged |
| Transcript.MergedIdempotent | transcript.py:47-51 | merging a merged dialog changes nothing |
| Transcript.GenerateTranscript | transcript.py:56-80 | the record's dialog is the merged recognised dialog; title, participants and location pass through; date and time are empty; the closing note is the fixed text |
| Metrics.LoadRttmAsAnnotation | metrics_calculation.py:9-28 | the reading loop returns the tracks of the SPEAKER lines in order, or None for an unreadable file or any failing line |
| Metrics.ReadLine | metrics_calculation.py:17-24 | a line is ignored iff it does not start with "SPEAKER"; it fails iff it does and has fewer than eight fields or an unparsable field 3 or 4; otherwise the track is fields 3 and 3 + 4 with the label of field 7 |
| Metrics.FailedLineRejects | metrics_calculation.py:26-28 | one failing line rejects the whole file |
| Metrics.RejectedIffSomeLineFails | metrics_calculation.py:14-28 | the file is rejected exactly when some line fails; no partial annotation is ever returned |
| Metrics.ReadLinesConcat | metrics_calculation.py:16-24 | reading two pieces in turn gives the tracks of both, in order |
| Metrics.SkippedLineIgnored | metrics_calculation.py:17-18 | a line not starting with "SPEAKER" can be removed without changing the result |
| Metrics.SpacedRecordFields | metrics_calculation.py:19 | a SPEAKER record written as single-space-separated words splits back into those words |
| Metrics.RttmLineRoundTrip | metrics_calculation.py:19-24 | a standard ten-field RTTM line reads back as exactly its onset, onset plus duration, and name |
| Metrics.CalculateJer | metrics_calculation.py:36-72 | the batch loop returns the outcome of each listed reference file, in order |
| Metrics.ReportCoversRttmNames | metrics_calculation.py:36-53 | exactly the `.rttm` names are reported, once each in listing order; a skipped file does not stop later ones |
| Metrics.Evaluate | metrics_calculation.py:40-67 | the outcome for one reference file carries its name; it is missing iff the hypothesis folder lacks the name, unloadable iff one side is rejected by the reader, and otherwise a rate in [0, 1] |
| Metrics.ReportedRatesBounded | metrics_calculation.py:59-67 | every rate the loop reports lies in [0, 1] |
| Timelines.Dur | metrics_calculation.py:66 | the length of a list of pieces is never negative |
| Timelines.CoversDiff | metrics_calculation.py:64 | the difference covers exactly the instants of the first list outside the second |
| Timelines.Crop | metrics_calculation.py:63 | the crop covers exactly the instants covered by both lists |
| Timelines.Union | metrics_calculation.py:64 | the union covers exactly the instants covered by either list |
| Timelines.Support | metrics_calculation.py:59-60 | the support covers exactly the instants the annotation covers, in pairwise disjoint pieces |
| Timelines.UnionDisjoint | metrics_calculation.py:64 | the union of disjoint lists has disjoint pieces |
| Timelines.CropDisjoint | metrics_calculation.py:63 | cropping disjoint lists gives disjoint pieces |
| Timelines.Split | metrics_calculation.py:63-64 | against a disjoint list, a list's length is its crop's length plus its difference's length |
| Timelines.UnionSwap | metrics_calculation.py:64 | for disjoint supports the union has the same length whichever comes first |
| Timelines.CropSwap | metrics_calculation.py:63 | the crop has the same length whichever list is cropped by the other |
| Timelines.JerOperands | metrics_calculation.py:59-64 | intersection and union are disjoint pieces covering exactly the common and the combined time of the two annotations |
| Timelines.IntersectionWithinUnion | metrics_calculation.py:63-66 | the intersection is never longer than the union |
| Timelines.Jer | metrics_calculation.py:59-67 | one minus the Jaccard index of the two supports, always in [0, 1] |
| Timelines.JerSymmetric | metrics_calculation.py:59-67 | swapping reference and hypothesis leaves JER unchanged |
| Timelines.JerSameCoverage | metrics_calculation.py:59-67 | two annotations covering the same non-empty time have JER 0 |
| Timelines.JerNoOverlap | metrics_calculation.py:66-67 | annotations with no common instant, and two empty ones, have JER 1 |
| Timelines.JerIgnoresLabels | metrics_calculation.py:59-67 | relabelling speakers on either side leaves JER unchanged |
| Pipeline.LastIndexOf | main.py:37 | None iff the character is absent; otherwise the position of its last occurrence |
| Pipeline.BaseNameHasNoSlash | main.py:37 | `BaseName` (basename, then splitext) never returns a text with a slash |
| Pipeline.BaseNameOfPath | main.py:37 | `dir/stem.ext` has base name `stem`: directory and final extension removed |
| Pipeline.BaseNameWithoutExtension | main.py:37 | `dir/name` without a dot has base name `name` |
| Pipeline.OutputPaths | main.py:25-56 | processed audio, RTTM, graph and transcript paths are `folder/base` plus `.wav`, `.rttm`, `.png`, `.json` |
| Pipeline.OutputPathsInjective | main.py:25-56 | inputs with different base names never share an output path |
| Pipeline.PlanRunsThrough | main.py:44-62 | no step of the plan raises iff the transcript step is imported and diarization, refinement and plotting do not raise; saving the RTTM file never does |
| Pipeline.RunPlan | main.py:44-62 | the try block attempts a prefix of the plan (diarize, refine, save RTTM, plot, transcript) in which only the last step raises; it fails at that step, or finishes iff it ran the whole plan and no step raised |
| Pipeline.ProcessFile | main.py:33-62 | preprocessing comes first; a failed conversion is the only skip, and a raised one ends the program; nothing else runs after either; the later steps run in plan order up to the first that raises; the run finishes iff none raises; without the transcript import it never finishes; with it, it finishes iff diarization, refinement and plotting do not raise |
| Pipeline.ProcessDataFolder | main.py:64-82 | no pipeline means exit with nothing processed; otherwise the `.wav` inputs in listing order up to and including the first whose preprocessing raises, which ends the loop; the loop completes iff none raises, and then every `.wav` input was handed over |
| Pipeline.WavInputsMembership | main.py:77-80 | a path is processed iff it is the audio-folder path of a `.wav` entry |
| DataPreprocessing.SplitTranscript | src/data_preprocessing.py:33-49 | the chunks are the stripped texts of a greedy cut of the lines: every line is in exactly one chunk, in order, none is split; a chunk of two or more lines is within the limit; an overlong first line leaves an empty first chunk |
| DataPreprocessing.GreedyBound | src/data_preprocessing.py:40-44 | every chunk of two or more lines, and a non-empty first chunk, is within the limit |
| DataPreprocessing.EmptyChunkText | src/data_preprocessing.py:46-47 | the only open chunk without text is a later chunk holding one empty line |
| DataPreprocessing.Rendered | src/data_preprocessing.py:41-47 | one stripped text per chunk |
| DataPreprocessing.SpeakerRegistry.constructor | src/data_preprocessing.py:52 | the registry starts empty |
| DataPreprocessing.SpeakerRegistry.LabelSpeakersConsistently | src/data_preprocessing.py:54-65 | the registry learns each new non-generic speaker in order; each entry gets the label implied by what was known when it was reached; non-generic entries are unchanged |
| DataPreprocessing.LearnExtends | src/data_preprocessing.py:52-60 | the registry only grows: earlier speakers stay, in their places |
| DataPreprocessing.LearnMembers | src/data_preprocessing.py:58-60 | a speaker is known afterwards iff it was known before or is a non-generic speaker of the chunk |
| DataPreprocessing.LearnConcat | src/data_preprocessing.py:52 | the registry persists across calls: two calls learn what one call on both chunks would |
| DataPreprocessing.FirstNonGeneric | src/data_preprocessing.py:58-63 | the first non-generic speaker, and None iff all are generic |
| DataPreprocessing.FirstKnown | src/data_preprocessing.py:60-63 | the registry's first entry is the first non-generic speaker it ever saw |
| DataPreprocessing.GenericGetsFirstKnown | src/data_preprocessing.py:61-63 | "client" or "employee" becomes the first speaker ever registered, and stays as it is while there is none |
| DataPreprocessing.FirstIndex | src/data_preprocessing.py:99-102 | the position of the first entry with the given text |
| DataPreprocessing.RemoveDuplicates | src/data_preprocessing.py:96-104 | the loop with its seen set returns the first occurrence of each text, in order |
| DataPreprocessing.FirstOccurrencesTexts | src/data_preprocessing.py:96-102 | a text appears in the result iff it appears in the input |
| DataPreprocessing.FirstOccurrencesDistinct | src/data_preprocessing.py:96-102 | the result's texts are pairwise distinct |
| DataPreprocessing.FirstOccurrencesAreFirst | src/data_preprocessing.py:96-102 | each kept entry is the first input entry with its text, and kept entries keep input order |
| DataPreprocessing.TopicCharClean | src/data_preprocessing.py:111-112 | a mapped character is no space, slash, backslash or upper-case letter |
| DataPreprocessing.SanitizedTopicShape | src/data_preprocessing.py:111-113 | `SanitizedTopic` gives "general_topic" for a blank answer, anything else the stripped answer mapped character by character; the result is non-empty, lower-case, with no space, `/` or `\` |
| DataPreprocessing.CleanTopicFixed | src/data_preprocessing.py:111-113 | a topic that is already non-empty, stripped, lower-case and free of spaces and slashes is kept as it is |
| DataPreprocessing.SanitizedTopicIdempotent | src/data_preprocessing.py:111-113 | sanitising a sanitised topic changes nothing |
| DataPreprocessing.LabeledTranscriptNameRoundTrip | src/data_preprocessing.py:120 | the file name `LabeledTranscriptName(topic)`, `topic + "_labeled_transcript.json"`, gives the topic back, so different topics get different files |
| Analysis.DynamicChunkSize | src/analysis.py:25-28 | the size is at least 1, at most max(1, length) and max(1, max_tokens // 50), and their minimum when both are at least 1 |
| Analysis.DefaultChunkSizeAtMostSix | src/analysis.py:25-28 | with the default 300 tokens the size is at most 6, and exactly 6 for six or more entries |
| Analysis.ChunkConversation | src/analysis.py:31-33 | as many chunks as `range(0, len, size)` has elements |
| Analysis.ChunkCount | src/analysis.py:33 | ⌈len / size⌉ chunks, and none exactly for an empty conversation |
| Analysis.ChunkLengths | src/analysis.py:33 | every chunk is non-empty and at most `size` long; all but the last are exactly `size` |
| Analysis.ChunksConcat | src/analysis.py:33 | concatenating the chunks gives the conversation back exactly |
| Analysis.DynamicChunking | src/analysis.py:25-33 | at the dynamic size the chunks concatenate back to the conversation and number ⌈len / size⌉ |
| JsonValues.Get | MailHandling/Email.py:19 | `d.get(key)` finds a value iff the key is present, and the value it finds is stored under that key |
| JsonValues.GetDistinct | MailHandling/Email.py:19 | in a dict with distinct keys, `d.get(key)` finds the value of the one member with that key |
| Email.MissingScoreIsZero | MailHandling/Email.py:19 | `ExtractScore` reads a missing "Sales Pitch Rating", "overall" or "score" as score 0 |
| Email.ScoreBeforeSlash | MailHandling/Email.py:99 | `ExtractScore` reads a score written `n/…` from the text before the slash |
| Email.BandOf | MailHandling/Email.py:28-36 | above 7 is the positive band, 4 to 7 the average band, anything else the low band |
| Email.DetailsPresence | MailHandling/Email.py:40-48 | the details block appears iff "Customer Interest" or "Missed Opportunity" is present, or "Negative Sentiment" with score ≤ 7; it is then the items between header and footer |
| Email.DetailItemsShape | MailHandling/Email.py:42-47 | the negative-sentiment item appears iff that key is present and score ≤ 7; items come once each in fixed order |
| Email.BuildEmailContent | MailHandling/Email.py:16-52 | a message exists iff the score is readable; its subject has the fixed prefix, and its body starts with the greeting, holds the band's feedback and ends with the band's closing |
| Email.BodyParts | MailHandling/Email.py:51 | the five-part body starts with the greeting, contains the feedback and ends with the closing |
| Email.DetermineRecipients | MailHandling/Email.py:54-64 | managers iff score > 7 or the sentiment says "positive"; otherwise salespeople iff score ≤ 4 or "negative"; otherwise all three; None iff the sentiment is not text |
| Email.ScoreFourNeutral | MailHandling/Email.py:31-59 | score 4 with a neutral sentiment gets the average feedback but the salesperson list |
| Email.ProcessAndSendEmail | MailHandling/Email.py:97-107 | nothing is sent iff the score or the sentiment cannot be read; otherwise the message sent is the built content, addressed by the recipient rules, with one score for both |
| OrderFunction.OrderBook.constructor | pdfGen/orderfunction.py:8-12 | with no count file, the counts start empty |
| OrderFunction.OrderBook.GenerateOrderId | pdfGen/orderfunction.py:20-40 | the stored map becomes the updated map, and the id is the date with the new count |
| OrderFunction.NextCountsEffect | pdfGen/orderfunction.py:29-33 | one call adds exactly one to the date's count, adds the date if new, and leaves all other counts unchanged |
| OrderFunction.FirstIdOfDay | pdfGen/orderfunction.py:29-39 | a new date starts at 0 and is incremented, so its first id ends "-0001" |
| OrderFunction.OrderIdShape | pdfGen/orderfunction.py:39 | `OrderId` is the date, a dash, and at least four digits that read back as the count |
| OrderFunction.OrderIdInjective | pdfGen/orderfunction.py:39 | two ids are equal iff their dates and counts are, for dates of any length |
| OrderFunction.SuccessiveIdsDistinct | pdfGen/orderfunction.py:33-39 | two successive calls on a date have strictly increasing counts and distinct ids |
| OrderFunction.CallsCount | pdfGen/orderfunction.py:33 | after k calls the date's count has grown by exactly k |
| OrderFunction.IdsOfDistinctCallsDiffer | pdfGen/orderfunction.py:33-39 | different calls on one date never return the same id |
| GeneratePdf.Style | pdfGen/GeneratePDF.py:24-29 | the style is one of "", "B", "U", "BU", with B iff bold and U iff underline |
| GeneratePdf.Capitalize | pdfGen/GeneratePDF.py:83 | `str.capitalize` keeps the length, upper-cases the first character and lower-cases the rest |
| GeneratePdf.PdfReport.constructor | pdfGen/GeneratePDF.py:52 | a new report is empty |
| GeneratePdf.PdfReport.AddTitle | pdfGen/GeneratePDF.py:18-21 | the title is appended and nothing else changes |
| GeneratePdf.PdfReport.AddParagraph | pdfGen/GeneratePDF.py:23-32 | the paragraph is appended with the style built from the flags, and nothing else changes |
| GeneratePdf.InsertIntoPdf | pdfGen/GeneratePDF.py:80-87 | the report gains exactly the dict's flattening: per key in order, a bold-underlined heading and its value's contents for a dict, else a bold heading and the plain value |
| GeneratePdf.InsertEntry | pdfGen/GeneratePDF.py:82-87 | one loop step appends exactly that member's blocks: the heading, then the nested dict's walk or the plain value |
| GeneratePdf.EntryBlocksDict | pdfGen/GeneratePDF.py:82-84 | a dict-valued key gives its `Key:` heading in style "BU", then its contents, before the next key |
| GeneratePdf.EntryBlocksLeaf | pdfGen/GeneratePDF.py:85-87 | a leaf key gives its `Key:` heading in style "B", then the unstyled value |
| GeneratePdf.FlattenCount | pdfGen/GeneratePDF.py:81-87 | the paragraph count is the number of nested dicts plus twice the number of leaves |
| GeneratePdf.FlatDictLayout | pdfGen/GeneratePDF.py:81-87 | a dict without nested dicts gives, key by key in dict order, its bold heading then its value |
| GeneratePdf.FlattenStyles | pdfGen/GeneratePDF.py:81-87 | every block of the walk is a paragraph in style "BU", "B" or "" |
| GeneratePdf.CreatePdfReport | pdfGen/GeneratePDF.py:51-72 | a fresh report holds the title, `"Report Id: " + id` and the flattened data; the order book advances once; the file is `id + ".pdf"` under `storedPDF/` |
| GeneratePdf.ReportHeader | pdfGen/GeneratePDF.py:60-68 | the first report of a day carries id `date-0001`, the file name ends ".pdf", and the block count is 2 plus the flattening count |
| ReviewMain.NewestIndex | src/main.py:21-27 | None iff there is no `.json` name; otherwise a `.json` entry with the greatest time, the first such in listing order |
| ReviewMain.NewestUnique | src/main.py:26-27 | at most one entry is the one the stable newest-first sort puts first |
| ReviewMain.LoadLatestFile | src/main.py:18-31 | fails iff the folder has no `.json` name |
| ReviewMain.LatestFileIsNewest | interactionReviewWithGpt/__main__.py:21-27 | the file loaded is the folder joined with the newest `.json` name |
| ReviewMain.NonJsonIgnored | interactionReviewWithGpt/__main__.py:21 | names not ending in ".json" never influence the choice |
| ReviewMain.ValidateJsonStructure | src/main.py:34-48 | on success the data is a dict whose "Meeting" is a dict whose "Dialog" is the returned list, and every element is a dict |
| ReviewMain.ValidationFailures | interactionReviewWithGpt/__main__.py:37-42 | it fails without "Meeting", with a "Meeting" that is no dict or has no "Dialog", or with a "Dialog" that is not a list of dicts |
| ReviewMain.ValidationAccepts | src/main.py:40-44 | a well-shaped document gives back its dialog unchanged |
| ReviewMain.EmptyDialogAccepted | interactionReviewWithGpt/__main__.py:41-44 | an empty dialog list is accepted |

## Left out

- Models and devices. The pyannote and Whisper models, ffmpeg, audio
  cropping and plotting are outside the model. The recogniser, the outcome
  of preprocessing (converted, failed, or raised) and each step's failure are
  parameters.
- DER and the pyannote timeline internals. pyannote computes DER with code
  that is not part of this model. Supports, crops and unions are defined here
  instead.
- Annotation details.
  - An annotation is its track list in file order.
  - pyannote's segment sorting, its overwrite of a repeated segment and its
    dropping of empty segments are not modelled.
  - Distinct segments are assumed; covered time is the same either way.
- Writing RTTM files (main.py:28). pyannote's `write_rttm` is not part of
  this model; only the reader is.
- Number text conversion. `float()`, `str()` of a number and `{score}` are
  abstract parameters (`parseFloat`, `show`, `showScore`). The `.2f`
  printing of the rates is left out.
- Email.ExtractScore: a parsed score is an exact `real`. Rounding, NaN and
  the infinities are not represented, so `parseFloat` must map a text such as
  "nan" or "inf" to `None` or to some real. For "nan/10" the source compares
  False everywhere: it takes the low band (MailHandling/Email.py:34-36), omits
  the Negative Sentiment item (:46) and, with a neutral sentiment, mails the
  three-address list (:62-64). No real score behaves like that, so the model
  does not capture this case.
- Metrics.ReadLine: onsets and durations are exact reals, with the same
  limits. An onset or duration "nan" gives pyannote an empty segment, which
  is dropped while the file keeps loading (metrics_calculation.py:20-24). The
  model instead rejects the file or keeps a real segment, depending on
  `parseFloat`.
- File and network I/O. This covers folder creation and JSON persistence.
  - The count file is the field `OrderBook.stored`.
  - File contents and directory listings, with modification times, are
    inputs given in listing order.
  - SMTP sending and the address lists are left out; recipients are the
    three named lists.
- FPDF layout: fonts, cells, `add_table`, the page header and the footer.
- The language-model calls and everything built on them, including the
  prompts and the rest of src/analysis.py. Model answers are inputs.
- The clock. `datetime.today() + 3 days` is passed in as the date text.
- Transcript step in main.py. `process_transcript` is never imported, so
  the shipped code raises a NameError at that step.
  - The parameter `transcriptImported` covers both the shipped behaviour and
    the intended import. With the import, the step never ends the file,
    because `process_transcript` catches its own exceptions.
- DataPreprocessing.SpeakerRegistry.LabelSpeakersConsistently: the source
  rewrites the chunk's entries in place. The model returns the relabelled
  entries as a new sequence, so aliasing between the input and the result is
  not modelled.
- DataPreprocessing.SpeakerRegistry.LabelSpeakersConsistently and
  DataPreprocessing.RemoveDuplicates: a model answer entry is a typed record
  with a speaker and a text. The source reads `entry['speaker']` and
  `entry["text"]` (src/data_preprocessing.py:57, 63, 92, 100-101). An answer
  element that is not a dict or lacks either key raises KeyError or
  TypeError, which the `except json.JSONDecodeError` at :93 does not catch,
  so `identify_speakers_in_transcript` ends. The model excludes such answers.
- Transcript.MergeConsecutiveStatements: the source extends the run's first
  dict in place. The model builds new entries, so aliasing is not modelled.
- Character handling.
  - Whitespace follows Python's `isspace` on Latin-1.
  - Lower-casing and `capitalize` act on ASCII letters only.
  - Other Unicode case mappings are not modelled.
- Analysis.ChunkConversation requires a non-zero size. `range` raises
  ValueError for a step of 0, and that crash path is not modelled. The only
  caller, `overall_meeting_summary` (src/analysis.py:52-55), passes the
  dynamic size, which is at least 1; `generate_analysis_report` reaches it
  only through that function.
- JSON objects with a repeated key. `json.load` keeps the last value of a
  repeated key, while `JsonValues.Get` returns the first. The two agree on
  the dicts `json.load` builds, which have distinct keys (`GetDistinct`); the
  datatype does not enforce distinct keys.
- GeneratePdf.InsertIntoPdf and GeneratePdf.CreatePdfReport require a dict
  argument. On anything else the source raises AttributeError, and that
  crash path is not modelled.
- The rest of `main()` in src/main.py (reading the file, the report file
  name, writing it) is I/O around the language-model analysis and is not
  modelled.
- The meeting-bot recorders, the Flask and Azure handlers and the frontend
  are not part of this model.
