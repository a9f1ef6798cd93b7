# agrepy and the CodeChat text pipeline, modelled in Dafny

This project models two separate bodies of code and proves properties of them.

**agrepy** (`agrepy_1.2/agrepy.c`, `sagrepy.c`, `lagrepy.c`) is a literal search that allows at most D edit errors.
- `compile` clamps the error budget.
- `agrepy` sends a pattern to one of two engines.
- The short engine has two phases:
  - `prep` and `initmask` build SHIFT, `shift_1`, MEMBER, the bit masks and `endposition`;
  - `exec_sagrepy` runs a shift/hash filter, then the bit-parallel rows R[0..D] over each candidate window.
  - `count_errors` and `furthest_zero` decode the rows.
- The long engine has three parts:
  - `am_preprocess` marks the pattern's bytes and byte pairs in MEMBER_1;
  - `exec_lagrepy` scans backwards over pair hashes;
  - `verify` runs a two-row cut-off dynamic program.
- Both engines resolve a match's start with `find_start_pos`, and record spans with `add_ends` in a growable list.

How the C is represented:
- Tables and row buffers are Dafny arrays, and the loops that fill them are methods with loop invariants.
- Words are `bv32`.
- The match list is a class with `npairs`, `maxpairs` and a `pairs` array.
- The text is a byte sequence. A read outside it, or at its end, gives the NUL byte. In the C a read at the terminator gives NUL, but a read before the text or past the terminator is undefined; "## Left out" names where the C does that.

**CodeChat** translates between source code and documents.

The classifier (`CodeChat/SourceClassifier.py`, plus the older length-based copy in `CodeChat/CodeToRest.py`) turns a lexer's token stream into lines. Each line is `(type, string)`: type −1 is code, and type k ≥ 0 is a comment indented by k.

From those lines, three state machines write documents:
- `_generate_rest` writes reST;
- `_generate_markdown` writes Markdown;
- `_generate_pretext` writes PreTeXt.

`rest_to_code_string` (`CodeChat/RestToCode.py`) parses the reST back into code.

The older HTML front ends hold their own state machines:
- `pyg_module.py` and `pyg.py` merge comment tokens;
- `html_edit.py` types lines.

`MruFiles` (`CodeChat/CodeChatUtils.py`) is the File menu's most-recently-used list.

How the Python is represented:
- Generators become functions or methods that return the sequence they would yield.
- `out_file` becomes a sequence of writes, or a string with a position for the PreTeXt writer, which seeks back.
- Python exceptions that the code relies on (IndexError, AssertionError) become explicit outcomes.
- Pygments token types are paths in the type tree, and `in` is a prefix test.

Where the documentation and the code disagree, the model follows the code:
- The tie-break of `find_start_pos_main` is worded differently in its header comment (`agrepy_1.2/sagrepy.c:94-98`). The model keeps the code's strict `<` and the code's order of the three branches.
- `CodeChat/CommentDelimiterInfo.py` stores integer lengths, which `_len_cdi` (`CodeChat/CodeToRest.py:229-241`) could not take the length of. The model takes delimiter strings, as `_len_cdi` expects, and the rest of the length-based copy takes lengths.
- The error sentence `rest_to_code_string` appends is the one in `CodeChat/RestToCode.py:373`, not the one its test compares against.

Main results:
- `RestToCodeRoundTrip.RoundTrip`: the reST that `_generate_rest` writes for classified lines is read back by `rest_to_code_string`: each code line as it was, each comment formulated at its indent, and after a final comment at indent 0 one more empty comment. This holds for the lines `ReadableLines` admits; "## Left out" lists what it excludes.
- `StartPos.FindStartPosMainIsMinimum`: the start resolver returns the lexicographic minimum of its search tree.
- The bit-level characterisations of `count_errors`, `furthest_zero`, the masks and `endposition`.
- The exact contents of the SHIFT, MEMBER and MEMBER_1 tables.
- `SagrepyExec.ExecSagrepy`: its filter hits are exactly `FilterHits`, a reference run of the skip-and-probe loop. Its reports meet `Searched` over the hits' windows, and `SagrepyExec.SearchedUnique` shows that `Searched` admits only one report sequence: in each window, the first fire after the window start and after each reset, before the scan's stop. `Lagrepy.ExecLagrepy` reports exactly `LagSpans`, in order, up to its fuel bound. `LagSpans` is a pass-by-pass reference definition built on the verdict `Dp` of verify's dynamic program.
- Text preservation by the classifier's grouping and by both comment mergers.
- Balanced fences and divs in the Markdown.
- The PreTeXt output, line by line.
- The MRU list's move-to-front, bound and duplicate-freedom.

## Model

| member | source | states |
|---|---|---|
| MatchList.Grown | agrepy_1.2/agrepy.c:34-38 | the new capacity is (int)(1.5·maxpairs), computed as 3·maxpairs/2, and exceeds maxpairs for every capacity ≥ 2 |
| MatchList.StoredEnd | agrepy_1.2/agrepy.c:40-46 | the stored end is end + 1 in a PYTHON build and end otherwise |
| MatchList.IntPairList.Single | agrepy_1.2/agrepy.c:27-33 | the first add_ends allocates a list with npairs = 0 and maxpairs = INITPAIRS (10), holding the span in pairs[0] |
| MatchList.IntPairList.Add | agrepy_1.2/agrepy.c:34-46 | a later add_ends raises npairs by one and grows the buffer when the new index reaches capacity; the new pair lands at pairs[npairs], the earlier pairs are unchanged and npairs < maxpairs is kept |
| MatchList.IntPairList.Trim | agrepy_1.2/sagrepy.c:338-341 | the final realloc cuts the buffer to npairs + 1 slots holding the same pairs |
| MatchList.AddEnds | agrepy_1.2/agrepy.c:25-53 | add_ends on null allocates a fresh list holding only the pair; otherwise it appends the pair to the given list |
| Agrepy.ClampErrors | agrepy_1.2/agrepy.c:83-94 | a budget of 0 becomes 1, any budget above 8 becomes 8, and budgets 1..8 are kept |
| Agrepy.ClampIdempotent | agrepy_1.2/agrepy.c:83-94 | clamping a clamped budget changes nothing |
| Agrepy.LongGuardAdmitsOverflow | agrepy_1.2/agrepy.c:75 | the guard as written admits patterns of 255 and 256 symbols, for which verify's rows (lagrepy.c:21, 36-37) are too small |
| Agrepy.LongFitsIsGuardedFit | agrepy_1.2/agrepy.c:73-78 | the corrected guard admits exactly the lengths above the intended threshold (24) that pass the original guard and whose rows fit |
| Agrepy.ShortEngineFragmentEmpty | agrepy_1.2/sagrepy.c:190-224 | with SHORT_LONG = 1, as agrepy.h:11 sets it, every pattern the short engine gets has fragments of m = M/(D+1) = 0 symbols once compile has clamped the budget, so the first shift m − 1 is −1 |
| Agrepy.LongEngineStepNotPositive | agrepy_1.2/lagrepy.c:183-198 | with SHORT_LONG = 1, two-symbol patterns go to the long engine, and their scan step m − 1 − D is at most 0 for every clamped budget |
| Agrepy.IntendedThresholdFits | agrepy_1.2/agrepy.c:1-6 | with the threshold of 24: the long engine's step m − 1 − D is positive for every clamped budget, and a short-engine pattern longer than the budget has fragments of 1 to 255 symbols |
| Agrepy.Choose | agrepy_1.2/agrepy.c:70-79 | (corrected) the short engine exactly when patlen ≤ 24, the intended threshold; the long engine only for lengths that pass the guard and fit verify's rows; no search otherwise |
| Agrepy.LagrepyCompile | agrepy_1.2/lagrepy.c:234-240 | lagrepy_compile returns fresh tables built by am_preprocess with the given budget |
| Agrepy.Compile | agrepy_1.2/agrepy.c:81-98 | compile clamps the budget, then builds the short engine's tables when patlen ≤ 24 (the intended threshold) and the long engine's otherwise |
| Agrepy.CompileAgreesWithChoose | agrepy_1.2/agrepy.c:73-76 | compile and agrepy pick the same engine for every length that agrepy searches with |
| Agrepy.Agrepy | agrepy_1.2/agrepy.c:70-79 | too long a pattern gives null. The short engine's hits are exactly FilterHits, and its reports and tails are what Searched asks of the scan over the hits' windows (one report sequence, by SearchedUnique). The long engine's spans are exactly LagSpans from position 0 within the fuel bound, and they are Traced. Either list is null exactly when nothing was found, and otherwise holds the pairs of those reports or spans |
| StartPos.StrLen | agrepy_1.2/sagrepy.c:118 | strlen is the length up to the first NUL: every byte before it is non-NUL, and it is NUL or the end |
| StartPos.FindStartPosMain | agrepy_1.2/sagrepy.c:100-170 | (definition of the resolver: lastok when patend = −1 or the budget is spent; a match steps both indices back; a mismatch tries three branches at one error each) its contract bounds the returned lastpatok and firstpatok: each is unchanged or an index into the pattern, and lastpatok never grows; that the result is the lexicographic minimum is FindStartPosMainIsMinimum |
| StartPos.FindStartPosMainIsMinimum | agrepy_1.2/sagrepy.c:132-169 | the result is a leaf of the resolver's search tree, and no leaf is strictly better in (errors, start, firstok) |
| StartPos.MatchIsMinimum | agrepy_1.2/sagrepy.c:112-130 | the match branch keeps the minimum of its subtree |
| StartPos.MismatchIsMinimum | agrepy_1.2/sagrepy.c:132-169 | the mismatch branch's result is the minimum over the leaves of its three subtrees |
| StartPos.GotoEndsWidens | agrepy_1.2/sagrepy.c:172-186 | when patend lies inside the pattern, the gotoends adjustment never narrows the span |
| StartPos.ExactMatchResolves | agrepy_1.2/sagrepy.c:100-186 | an exact occurrence of the whole pattern that ends at textend resolves to the span of that occurrence |
| SagrepyBits.FurthestZero | agrepy_1.2/sagrepy.c:56-88 | −1 exactly when the word has no 0 bit; otherwise the MSB-relative position p of a 0 bit with every bit to its right set |
| SagrepyBits.NibbleZero | agrepy_1.2/sagrepy.c:60-86 | the switch on one nibble gives its highest-numbered zero bit, or reports none |
| SagrepyBits.ShiftOutLeadingOnes | agrepy_1.2/sagrepy.c:35-38 | the inner loop shifts ~R[i] << i past its leading ones, leaving a word that is zero exactly when no zero followed them |
| SagrepyBits.TopBitsTest | agrepy_1.2/sagrepy.c:41-47 | the top_bits test checks that the i + 1 high bits of R[i] are clear, and the mask then gains the next bit |
| SagrepyBits.CountErrors | agrepy_1.2/sagrepy.c:26-52 | the result satisfies IsErrorCount: the least row i ≤ D with an embedded zero; failing that, the least i whose i + 1 top bits are clear; else −1 |
| SagrepyBits.ErrorCountUnique | agrepy_1.2/sagrepy.c:26-52 | IsErrorCount determines the answer: at most one value satisfies it |
| SagrepyBits.PosShift | agrepy_1.2/sagrepy.c:252-368 | the position bit Pos(j) is Bit1 >> j |
| SagrepyBits.ShrByBit | agrepy_1.2/sagrepy.c:264 | shifting a row right by s moves its bit q − s to position q |
| SagrepyTables.FragmentsInside | agrepy_1.2/sagrepy.c:372-421 | each of the D + 1 fragments of m symbols lies inside the pattern |
| SagrepyTables.FragStart | agrepy_1.2/sagrepy.c:394-408 | the first fragment, which starts after the M mod (D + 1) unused symbols, starts inside the pattern, and a fragment starting before M is non-empty |
| SagrepyTables.FragHashFits | agrepy_1.2/sagrepy.c:409-420 | hashes of at most three bytes in 0..255 index MEMBER (below MEMBER_TABLE_SIZE) |
| SagrepyTables.BestShift | agrepy_1.2/sagrepy.c:383-392 | (reference definition) a SHIFT entry is the least distance (M−1−i) mod m over the symbol's occurrences, capped at m |
| SagrepyTables.PrepHash | agrepy_1.2/sagrepy.c:409-420 | the hash prep computes for a fragment is FragHash of its last b symbols |
| SagrepyTables.MaskBits | agrepy_1.2/sagrepy.c:360-368 | Mask[c] has MSB-relative bit j clear exactly when pattern[j] == c, for j < m; every other bit is set |
| SagrepyTables.MaskBit | agrepy_1.2/sagrepy.c:360-368 | one bit of Mask[c], both directions |
| SagrepyTables.EndPositionBit | agrepy_1.2/sagrepy.c:355-359 | endposition has exactly the D + 1 bits of the fragment ends set |
| SagrepyTables.SagrepParams.Prep | agrepy_1.2/sagrepy.c:372-421 | prep leaves SHIFT[0] = 0 and every other SHIFT entry equal to BestShift, shift_1 ≥ 1, and MEMBER set exactly at the D + 1 fragment hashes |
| SagrepyTables.SagrepParams.ShiftTable | agrepy_1.2/sagrepy.c:383-392 | the SHIFT loops: entry 0 is 0, and every other entry is BestShift of its symbol |
| SagrepyTables.SagrepParams.FillShift | agrepy_1.2/sagrepy.c:383-385 | the first SHIFT loop sets every symbol but NUL to m |
| SagrepyTables.SagrepParams.LowerShift | agrepy_1.2/sagrepy.c:386-392 | one pattern position lowers its symbol's shift to BestShift from that position on |
| SagrepyTables.SagrepParams.ShiftOne | agrepy_1.2/sagrepy.c:394-408 | shift_1 is the distance back to the last fragment end's earlier occurrence, reset to 1 when that is 0, so always ≥ 1 |
| SagrepyTables.SagrepParams.MemberTable | agrepy_1.2/sagrepy.c:409-420 | MEMBER is true exactly at the fragment hashes |
| SagrepyTables.SagrepParams.InitMask | agrepy_1.2/sagrepy.c:348-369 | initmask sets endposition and every Mask[c] as MaskBits and EndPositionBit characterise |
| SagrepyTables.SagrepParams.EndPosition | agrepy_1.2/sagrepy.c:355-359 | the endposition loop sets D + 1 adjacent bits ending at position m − 1 |
| SagrepyTables.SagrepParams.Masks | agrepy_1.2/sagrepy.c:360-368 | the Mask loops clear in Mask[c] the bit of every pattern position that holds c |
| SagrepyTables.SagrepyCompile | agrepy_1.2/sagrepy.c:424-431 | sagrepy_compile builds fresh tables: prep with budget D, then initmask with budget 0 over the whole pattern |
| SagrepyTables.MaskAbsent | agrepy_1.2/sagrepy.c:360-368 | a symbol that does not occur in the pattern keeps an all-ones mask |
| SagrepyTables.AndMaskIdem | agrepy_1.2/sagrepy.c:366 | masking twice with the same mask, or first with all ones, is masking once |
| SagrepyExec.Windows | agrepy_1.2/sagrepy.c:233-239 | (specification) the candidate windows the hits produce in order, starting from (0, 0) |
| SagrepyExec.WindowsWellSpaced | agrepy_1.2/sagrepy.c:233-239 | windows open only when a hit lies more than M + D + 10 past the last window's end, so consecutive windows start at least 13 apart and do not overlap; with no hit there is the single window (0, 0), otherwise the last window ends M + D past the last hit |
| SagrepyExec.WindowsCover | agrepy_1.2/sagrepy.c:233-239 | every hit i lies in a window that starts no later than i − M − D − 2 (or 0) and ends no earlier than i + M + D |
| SagrepyExec.LastHitCovered | agrepy_1.2/sagrepy.c:233-239 | the last hit lies in the last window |
| SagrepyExec.WellSpacedCount | agrepy_1.2/sagrepy.c:200 | window r of well-spaced windows starts at 13·r − 4 or later, so a text of at most MAXTEXT symbols cannot fill more than the 2048 entries of Candidate |
| SagrepyExec.Filter | agrepy_1.2/sagrepy.c:215-244 | the filter's hits are exactly FilterHits: the reference run that lands on the next symbol with SHIFT 0, probes MEMBER with the hash of the fragment ending there, and goes on with shift1 until the text is passed. The hits increase, each is a MEMBER hit, and Candidate[0..cdx] holds Windows(hits) |
| SagrepyExec.Jump | agrepy_1.2/sagrepy.c:224-226 | the skip loop lands exactly at Land(pos + shift): the first point of the SHIFT chain from pos + shift whose symbol has SHIFT 0, so every point it passes on the way has SHIFT ≠ 0 |
| SagrepyExec.Land | agrepy_1.2/sagrepy.c:224-226 | (reference for the skip loop) the landing lies at or after its starting point and its symbol has SHIFT 0; from within 254 past the text it stays within 254 past the text |
| SagrepyExec.Probe | agrepy_1.2/sagrepy.c:227-243 | the hit list gains pos exactly when MEMBER holds the hash of the fragment ending at pos, and Candidate[0..cdx] stays Windows of the hits |
| SagrepyExec.FilterPass | agrepy_1.2/sagrepy.c:222-244 | one pass of the filter loop (jump, probe, note) keeps the hits so far followed by the reference run from the new landing equal to FilterHits |
| SagrepyExec.FilterStep | agrepy_1.2/sagrepy.c:222-244 | a pass that lands at Land(pos + shift) and appends the probe's result there keeps hits ++ HitsFrom(rest) equal to the whole run |
| SagrepyExec.HitsFromOk | agrepy_1.2/sagrepy.c:219-244 | every hit of the reference run lies at or after its first landing point, the hits increase, and each is a MEMBER hit |
| SagrepyExec.ProbeHash | agrepy_1.2/sagrepy.c:227-229 | the hash computed at pos is FragHash of the symbol there and the r1 − 1 symbols before it |
| SagrepyExec.NoteCandidate | agrepy_1.2/sagrepy.c:232-239 | a hit opens or extends a window exactly as NoteHit says |
| SagrepyExec.RunNested | agrepy_1.2/sagrepy.c:261-336 | rows stay nested (R[k] ⊆ R[k+1] as zero sets) from a window start and after any stretch of text |
| SagrepyExec.InitRowIsLowOnes | agrepy_1.2/sagrepy.c:261-264 | the initial row k has exactly its k high bits clear |
| SagrepyExec.StartRows | agrepy_1.2/sagrepy.c:261-264 | a window start sets R[0] = ~0, R[1] = ~Bit1 and R[k] = (R[k−1] >> 1) & R[k−1] |
| SagrepyExec.ResetRows | agrepy_1.2/sagrepy.c:297-299 | after a reported match every row is all ones |
| SagrepyExec.Step | agrepy_1.2/sagrepy.c:265-283 | one half-step computes all D + 1 rows after reading a symbol, as RowStep specifies |
| SagrepyExec.Resolve | agrepy_1.2/sagrepy.c:284-296 | the match block counts the errors, moves the end to the furthest zero of row D and resolves the start with find_start_pos |
| SagrepyExec.HalfStep | agrepy_1.2/sagrepy.c:265-300 | a half-step, taken only before the window's stop, reads one symbol and, when the end test fires, reports the resolved span and restarts from all-ones rows; a report made from the window start is the round's first |
| SagrepyExec.TwoSteps | agrepy_1.2/sagrepy.c:265-336 | one iteration of the scan loop, taken while i < hi, is a half-step from R2 into R1, then one from R1 into R2; both symbols lie before the stop |
| SagrepyExec.ScanWindow | agrepy_1.2/sagrepy.c:253-336 | scanning one clipped window [lo, hi) ends at Stop(lo, hi), lo + 2·⌈(hi − lo)/2⌉, since each pass reads two symbols; its reports are first fires after the start or a reset, each with its resolved span, in order, and the tail after the last one is quiet up to the stop |
| SagrepyExec.SearchWindows | agrepy_1.2/sagrepy.c:246-341 | the second phase from a fresh pair of row buffers: the reports meet Searched over Candidate[0..cdx], and the list is null exactly when there are none and otherwise holds their pairs |
| SagrepyExec.RoundsOrdered | agrepy_1.2/sagrepy.c:253-336 | reports come in round order |
| SagrepyExec.FirstFire | agrepy_1.2/sagrepy.c:284 | after a given restart, at most one position fires first |
| SagrepyBits.LastZeroUnique | agrepy_1.2/sagrepy.c:56-88 | a word has at most one zero bit with only ones after it, so furthest_zero's answer is determined |
| SagrepyExec.FurthestZeroUnique | agrepy_1.2/sagrepy.c:56-88 | furthest_zero's answer as an int (−1 for none) is determined by the word |
| SagrepyExec.SameReading | agrepy_1.2/sagrepy.c:284-296 | two reports at the same position after the same restart read the same error count, furthest zero, furthest and span |
| SagrepyExec.SameRoundAgree | agrepy_1.2/sagrepy.c:253-336 | two reports in the same round after the same earlier reports are the same report |
| SagrepyExec.TailMatches | agrepy_1.2/sagrepy.c:253-336 | a round's tail was counted where a report that would next be in that round stands, and restarted where that report restarted |
| SagrepyExec.NextRound | agrepy_1.2/sagrepy.c:253-336 | whatever report could come next after the first k, the search made a k-th report in that round or an earlier one: a round it left has a quiet tail |
| SagrepyExec.ReportsAgree | agrepy_1.2/sagrepy.c:253-336 | two searches that agree on their first k reports agree on the next |
| SagrepyExec.SearchedUnique | agrepy_1.2/sagrepy.c:246-341 | Searched determines the reports: two searches of the same windows report the same sequence |
| SagrepyExec.ScanRound | agrepy_1.2/sagrepy.c:253-260 | a round clips its window to [0, n] and scans it |
| SagrepyExec.ScanRounds | agrepy_1.2/sagrepy.c:253-336 | the second phase scans windows 0..cdx in turn: the reports and tails meet Searched, and the list holds every round's reports in order |
| SagrepyExec.ExecSagrepy | agrepy_1.2/sagrepy.c:190-342 | exec_sagrepy: the hits are exactly FilterHits; the windows are Windows(hits); the reports meet Searched over them (one report sequence, by SearchedUnique); the list is null exactly when nothing was reported and otherwise holds Pairs(reports) |
| Lagrepy.PairKey | agrepy_1.2/lagrepy.c:227-229 | the hash of a byte pair is below HASHTABLESIZE and keeps both bytes: the high byte is hi and the low byte lo |
| Lagrepy.LagrepParams.AmPreprocess | agrepy_1.2/lagrepy.c:217-231 | Hashmask becomes 2^16 − 1, and MEMBER_1 is true exactly at the pattern's bytes and at (P[i] << 8) + P[i−1] for 1 ≤ i < patlen |
| Lagrepy.LagrepParams.MarkPattern | agrepy_1.2/lagrepy.c:225-230 | the table loops clear MEMBER_1, then mark the bytes and the pairs |
| Lagrepy.Roll | agrepy_1.2/lagrepy.c:199-203 | one step of the rolling hash stays below HASHTABLESIZE and its low byte is the byte shifted in |
| Lagrepy.SuffixReadsBack | agrepy_1.2/lagrepy.c:197-205 | every tolerated miss reads at least one byte, so the scan ends at least D + 1 − misses back |
| Lagrepy.ScanBack | agrepy_1.2/lagrepy.c:197-205 | the backward scan stops where Chain says: while MEMBER_1 accepts the masked hash, tolerating up to D + 1 misses |
| Lagrepy.Cost | agrepy_1.2/lagrepy.c:42-66 | (reference definition) a cell takes the diagonal value when the pattern symbol matches, and otherwise 1 + min(diagonal, up, left) |
| Lagrepy.SetCell | agrepy_1.2/lagrepy.c:42-66 | one cell is set to Cost and no other cell changes |
| Lagrepy.Fill | agrepy_1.2/lagrepy.c:42-66 | cells 1..last of the current row are Cost of the previous row and the symbol; the row is FillRow of the old row, and d is Cut of it |
| Lagrepy.FillRowCells | agrepy_1.2/lagrepy.c:42-66 | the row FillRow builds follows the cell recurrence in cells 1..k and keeps every other cell |
| Lagrepy.CutIsCutoff | agrepy_1.2/lagrepy.c:63-64 | Cut is the cut-off error count: D, lowered to each cell below its own index and below the count so far |
| Lagrepy.Advance | agrepy_1.2/lagrepy.c:70-101 | last grows by one on a match at pat[last], copying the diagonal, and by one more while its cell is below D; it then winds back while its cell exceeds D. The row and the extended last are Extended of the old row, and the final last is WindBack of them |
| Lagrepy.Half | agrepy_1.2/lagrepy.c:40-101 | one half step leaves the row, last and d that HalfOf gives for the old rows |
| Lagrepy.NewRows | agrepy_1.2/lagrepy.c:36-37 | A[i] = B[i] = i for 0 ≤ i ≤ m + 1, which needs m + 1 < MAXPATLEN |
| Lagrepy.Dp | agrepy_1.2/lagrepy.c:36-177 | (reference definition of verify's loop from fresh rows, pass by pass through Run and RunPass) a confirmation names a pattern end of m − 1 or m and a text end at or after start |
| Lagrepy.DpFindsExact | agrepy_1.2/lagrepy.c:36-177 | the pattern 01 02 against the text 01 02 with no error allowed is confirmed, the match ending at text index 1 |
| Lagrepy.TwoHalves | agrepy_1.2/lagrepy.c:40-177 | one pass of the loop either goes on with Run from the new rows giving the same verdict, or confirms exactly the verdict's pattern and text ends, or stops at a NUL when the verdict is unconfirmed |
| Lagrepy.Confirm | agrepy_1.2/lagrepy.c:36-181 | the loop confirms exactly when Dp does, with Dp's pattern end (last − 1) and text end |
| Lagrepy.Verify | agrepy_1.2/lagrepy.c:18-181 | verify finds a match exactly when Dp confirms one. It then appends exactly one pair, the resolved span of Dp's ends, and returns one past that span's end. With no match it returns text + m and leaves the list unchanged |
| Lagrepy.Report | agrepy_1.2/lagrepy.c:102-107 | a confirmed match is resolved with find_start_pos and appended with add_ends |
| Lagrepy.LagStep | agrepy_1.2/lagrepy.c:195-209 | one pass steps m − 1 − D ahead, scans back, and calls verify only when the scan reaches oldtext or passes it; the next position and the spans it adds are exactly LagPass's |
| Lagrepy.VerifyAt | agrepy_1.2/lagrepy.c:206-207 | the verify call covers 2m + D symbols from oldtext; the next position and the spans it adds are exactly VerifyPass's, by Dp's verdict |
| Lagrepy.LagSpansStep | agrepy_1.2/lagrepy.c:195-209 | one more pass moves exactly LagPass's reported spans from what LagSpans has left to what is done |
| Lagrepy.ScanText | agrepy_1.2/lagrepy.c:195-209 | the scan loop's spans are exactly LagSpans from position 0 within the fuel bound, Traced, and held in order by the list |
| Lagrepy.ExecLagrepy | agrepy_1.2/lagrepy.c:183-213 | the spans are exactly LagSpans from position 0 within the fuel bound; the list is null exactly when there are none and otherwise holds SpanPairs of them in order; the calls and spans are Traced through the scan |
| SourceClassifier.GroupForTokentypeCases | CodeChat/SourceClassifier.py:527-566 | Text and Whitespace group as whitespace; Comment.Single and Comment.Singleline as inline; Comment.Multiline as block; bare Comment by the lexer's comment kinds (inline when both or neither); everything else as other |
| SourceClassifier.RunsText | CodeChat/SourceClassifier.py:449-506 | merging tokens into runs keeps the text |
| SourceClassifier.RunsDistinct | CodeChat/SourceClassifier.py:449-506 | no two neighbouring runs share a group |
| SourceClassifier.YieldedProperties | CodeChat/SourceClassifier.py:449-506 | without docstring rewriting, the yielded strings concatenate to the input and no two neighbours share a group |
| SourceClassifier.PreparedValues | CodeChat/SourceClassifier.py:460-484 | without docstring rewriting, the pairs carry the token values unchanged |
| SourceClassifier.ReadToken | CodeChat/SourceClassifier.py:460-484 | reading a token counts its newlines, rewrites a docstring and groups it |
| SourceClassifier.GroupLexerTokens | CodeChat/SourceClassifier.py:449-506 | _group_lexer_tokens yields Runs of the prepared pairs |
| SourceClassifier.Accumulate | CodeChat/SourceClassifier.py:485-501 | a pair of the current group extends its string, and another yields the run so far and starts a new one |
| SourceClassifier.BlockIndent | CodeChat/SourceClassifier.py:595-641 | the ws_len of a multi-line block comment is len(open) + 1 + the text already on its first line, or 0 when a later line fails the chosen indent check |
| SourceClassifier.LabelledGroups | CodeChat/SourceClassifier.py:595-663 | a block comment over n ≥ 2 lines is labelled start, body…, end, all with its ws_len |
| SourceClassifier.PiecesText | CodeChat/SourceClassifier.py:643-667 | flattening the gathered lines gives back the pairs' text in order |
| SourceClassifier.SpaceIndentedBlock | CodeChat/SourceClassifier.py:743-814 | a block comment whose later lines are all longer than len(open) + 1 + the text before it, and begin with that many whitespace characters, gets exactly that ws_len |
| SourceClassifier.BlockIndentOf | CodeChat/SourceClassifier.py:595-641 | the method computes BlockIndent as the source does |
| SourceClassifier.CheckIndents | CodeChat/SourceClassifier.py:630-641 | the indent loop gives ws_len while every later line passes, and 0 from the first that fails |
| SourceClassifier.GatherGroupsOnNewlines | CodeChat/SourceClassifier.py:567-667 | each yielded line but the last ends with a newline, and the lines flatten to the labelled pieces of the pairs |
| SourceClassifier.StoreKeep | CodeChat/SourceClassifier.py:643-659 | a piece without a newline extends the current line |
| SourceClassifier.StoreFinish | CodeChat/SourceClassifier.py:657-659 | a piece that ends with a newline finishes the current line |
| SourceClassifier.RemoveInlineDelim | CodeChat/SourceClassifier.py:944-988 | an inline comment loses the first listed delimiter that prefixes its lower-cased text |
| SourceClassifier.RemoveCobolDelim | CodeChat/SourceClassifier.py:944-988 | with the COBOL lexer, an inline comment with '*' in column 7 loses exactly its first 7 characters |
| SourceClassifier.RemoveBlockDelims | CodeChat/SourceClassifier.py:944-988 | a one-line block comment loses both delimiters, a start line its opening one and an end line its closing one; other groups are unchanged |
| SourceClassifier.IsRestCommentCases | CodeChat/SourceClassifier.py:1008-1061 | never with code on the line or on a blank line; always for body and end lines inside a reST block; otherwise exactly when the text after the delimiter is empty or starts with a space or newline |
| SourceClassifier.InlineRestExamples | CodeChat/SourceClassifier.py:1008-1061 | `// x` is a reST comment and `//x` is not, indented or not |
| SourceClassifier.BodyNeedsBlock | CodeChat/SourceClassifier.py:867-943 | a body or end line with no leading whitespace is a reST comment only inside a reST block |
| SourceClassifier.BodyNotFirst | CodeChat/SourceClassifier.py:867-943 | the first line, when it is a reST comment, is never a block-comment body or end line: those take their type from an earlier line |
| SourceClassifier.ClassifyOne | CodeChat/SourceClassifier.py:884-937 | a non-reST line gives (−1, the whole line) and clears the block state; a reST line gives (its leading whitespace length, its stripped text) |
| SourceClassifier.CommentTextOf | CodeChat/SourceClassifier.py:903-937 | the loop builds CommentText; CommentTextInline and CommentTextBlockBody give its value |
| SourceClassifier.CommentTextInline | CodeChat/SourceClassifier.py:909-937 | an inline comment line `ws + d + " " + text`, d being the first listed delimiter it starts with, has the text `text` |
| SourceClassifier.CommentTextBlockBody | CodeChat/SourceClassifier.py:918-931 | a block comment body line is kept whole when its ws_len is 0 or it is whitespace only; `indent + " " + text` with ws_len − 1 indent characters has the text `text` |
| SourceClassifier.ClassifyGroups | CodeChat/SourceClassifier.py:867-943 | the lines are classified one by one, carrying whether a reST block comment is open |
| CodeToRestClassify.LenCdiOf | CodeChat/CodeToRest.py:229-241 | every delimiter becomes its length, None stays None, and the arity is kept |
| CodeToRestClassify.IndentedDependsOnLengths | CodeChat/CodeToRest.py:758-855 | the indent checks read only the closing delimiter's length |
| CodeToRestClassify.BlockIndentDependsOnLengths | CodeChat/CodeToRest.py:620-655 | the block-comment indent reads only the delimiters' lengths |
| CodeToRestClassify.PiecesDependOnLengths | CodeChat/CodeToRest.py:595-683 | gathering gives the same pieces for any delimiters of the same lengths |
| CodeToRestClassify.GatherGroupsOnNewlinesLen | CodeChat/CodeToRest.py:595-683 | the length copy gathers exactly the pieces that the string version gathers for delimiters of those lengths |
| CodeToRestClassify.RemoveLenRoundTrip | CodeChat/CodeToRest.py:946-979 | stripping by length undoes the delimiters: an inline comment loses the inline delimiter, a one-line block comment both, a start line the opening one and an end line the closing one |
| CodeToRestClassify.RemoveLenWithoutInline | CodeChat/CodeToRest.py:954-959 | an inline comment without an inline length (`s[None:]`) keeps its whole string |
| CodeToRestClassify.IsRestCommentLenExamples | CodeChat/CodeToRest.py:999-1048 | with C's lengths, `// x` and `/* x */` are reST comments, indented or not; `//x` and lines holding code are not |
| CodeToRestClassify.StripBodyAsWrittenFails | CodeChat/CodeToRest.py:919-925 | the unguarded `string[0]` fails exactly when a non-blank text has no character left after dropping ws_len − 1 |
| CodeToRestClassify.ClassifyLineAsWrittenRaises | CodeChat/CodeToRest.py:919-925 | the end line of `    /* a` / `       b` / `x*/` raises IndexError as written, and the corrected step classifies it as (4, "") |
| CodeToRestClassify.StripBody | CodeChat/SourceClassifier.py:918-926 | (corrected) the body-line strip, with the emptiness test, is defined for every line and never lengthens it; StripBodyAsWrittenFails shows it agrees with the unguarded strip wherever that one succeeds |
| CodeToRestClassify.ClassifyLineAgrees | CodeChat/CodeToRest.py:874-939 | where the as-written step does not raise, it agrees with the corrected one |
| CodeToRestClassify.ClassifyLineCases | CodeChat/CodeToRest.py:874-939 | a non-reST line is code (−1, whole line) and clears the block state; a reST line is typed by its leading whitespace |
| CodeToRestClassify.RunLenAt | CodeChat/CodeToRest.py:874-939 | each line's result depends only on the lines before it |
| CodeToRestClassify.CodeLinesVerbatim | CodeChat/CodeToRest.py:874-939 | every line of code is reproduced whole, with type −1 |
| CodeToRestClassify.CodeIsNeverComment | CodeChat/CodeToRest.py:874-1048 | a line holding code is never a reST comment |
| CodeToRestClassify.ClassifyGroupsLen | CodeChat/CodeToRest.py:874-939 | step 4 of the length copy, corrected: each line's result is RunLen's |
| CodeToRest.ExitWrites | CodeChat/CodeToRest.py:1326-1340 | leaving a state writes at most one marker (the ending fence for code, the closing div for an indented comment, nothing for type 0); CodeBlockExample and IndentedCommentExample pin down which |
| CodeToRest.EnterWrites | CodeChat/CodeToRest.py:1282-1308 | entering a state writes one or two markers: the fenced-code directive and beginning fence for code, the div (t > 0) then '.. set-line:: line−4' for a comment |
| CodeToRest.ExitState | CodeChat/CodeToRest.py:1326-1340 | _exit_state appends ExitWrites |
| CodeToRest.EnterState | CodeChat/CodeToRest.py:1282-1308 | the entering half appends EnterWrites |
| CodeToRest.ChangeState | CodeChat/CodeToRest.py:1282-1308 | a change of type exits the old state and enters the new one; no change writes nothing |
| CodeToRest.WriteLine | CodeChat/CodeToRest.py:1311-1313 | a code line is written after one space, and a comment line as it is |
| CodeToRest.GenerateLine | CodeChat/CodeToRest.py:1278-1316 | one pass changes state if the type changed, then writes the line |
| CodeToRest.GenerateRest | CodeChat/CodeToRest.py:1264-1320 | from state −2 at line 1, the writes are Generated: markers only at type changes, every line, and one exit after the last |
| CodeToRest.RunEndExact | CodeChat/CodeToRest.py:1282-1284 | a run is maximal: its lines share its type and the next line's differs |
| CodeToRest.PartitionBodies | CodeChat/CodeToRest.py:1264-1320 | the runs put back together are the lines |
| CodeToRest.PartitionRuns | CodeChat/CodeToRest.py:1264-1320 | each run is non-empty and of one type |
| CodeToRest.PartitionAlternates | CodeChat/CodeToRest.py:1282-1284 | consecutive runs differ in type and follow each other without gaps |
| CodeToRest.GenerateRestIsBlocks | CodeChat/CodeToRest.py:1264-1340 | the reST is the runs' blocks in order: code inside one fenced block, indented comments inside a div, every comment run after its set-line |
| CodeToRest.CodeBlockExample | CodeChat/CodeToRest.py:1289-1334 | three code lines become one fenced block, each line after a space |
| CodeToRest.IndentedCommentExample | CodeChat/CodeToRest.py:1294-1340 | comment lines indented by 3 sit in a div with a margin of 1.5 em, after set-line −3 for line 1 |
| CodeToRest.DivOpenExample | CodeChat/CodeToRest.py:1294-1296 | an indent of 3 writes margin-left:1.5em |
| CodeToRest.SetLineExample | CodeChat/CodeToRest.py:1307 | line 1 is announced as set-line −3 |
| CodeToRest.LeadingEmptyExact | CodeChat/CodeToRest.py:1366-1372 | the forward walk counts exactly the empty lines before the first non-empty one |
| CodeToRest.TrailingEmptyExact | CodeChat/CodeToRest.py:1374-1384 | the backward walk counts exactly the empty lines after the last non-empty one |
| CodeToRest.PaddedProperties | CodeChat/CodeToRest.py:1355-1384 | padding turns only end empty lines, each into a single space, and leaves no empty line at either end |
| CodeToRest.PaddedEndsIsPadded | CodeChat/CodeToRest.py:1366-1384 | when both walks stop at a non-empty line, the result is Padded |
| CodeToRest.AllPaddedIsPadded | CodeChat/CodeToRest.py:1366-1384 | when every line was empty, each one is padded and the backward walk does nothing |
| CodeToRest.FencedCodeBlock.Run | CodeChat/CodeToRest.py:1353-1384 | content with fewer than two lines is an error and stays unchanged; otherwise the fence lines are dropped and the rest is Padded |
| CodeToMarkdown.Fence | CodeChat/CodeToMarkdown.py:125 | the fence is 100 backticks |
| CodeToMarkdown.ExitWrites | CodeChat/CodeToMarkdown.py:186-200 | leaving a state writes at most one marker (the fence for code, the closing div for an indented comment, nothing for type 0); MixedExample and UnindentedExample pin down which |
| CodeToMarkdown.EnterWrites | CodeChat/CodeToMarkdown.py:161-171 | entering a state writes at most one marker (the fence for code, the div with margin 0.5·t em for t > 0, nothing for type 0); MixedExample and DivOpenExample pin down which |
| CodeToMarkdown.ExitState | CodeChat/CodeToMarkdown.py:186-200 | _exit_state appends ExitWrites |
| CodeToMarkdown.ChangeState | CodeChat/CodeToMarkdown.py:154-171 | a change exits the old state, then enters the new one |
| CodeToMarkdown.GenerateLine | CodeChat/CodeToMarkdown.py:148-177 | one pass changes state if the type changed, then writes the line verbatim |
| CodeToMarkdown.GenerateMarkdown | CodeChat/CodeToMarkdown.py:134-180 | from state −2, markers only at type changes, every line as it is, and one exit at the end |
| CodeToMarkdown.GeneratedCloses | CodeChat/CodeToMarkdown.py:154-200 | the writes close every fence and div they open, and the one open in the current state |
| CodeToMarkdown.MarkdownBalanced | CodeChat/CodeToMarkdown.py:134-200 | read from the start, the Markdown opens and closes fences and divs in turn and ends outside both |
| CodeToMarkdown.GeneratedLines | CodeChat/CodeToMarkdown.py:173 | every line string is written verbatim and in order; everything else written is a marker |
| CodeToMarkdown.GenerateMarkdownIsBlocks | CodeChat/CodeToMarkdown.py:134-200 | the Markdown is the runs in order, each written as its opening, its lines and its closing |
| CodeToMarkdown.MixedExample | CodeChat/CodeToMarkdown.py:134-200 | code, a comment indented by 2, then code give fence, code, fence, div, comment, div end, fence, code, fence |
| CodeToMarkdown.UnindentedExample | CodeChat/CodeToMarkdown.py:164-200 | an unindented comment gets no wrapper |
| CodeToMarkdown.DivOpenExample | CodeChat/CodeToMarkdown.py:166-171 | an indent of 3 gives a margin of 1.5 em |
| CodeToMarkdown.Prolog | CodeChat/CodeToMarkdown.py:75-80 | the output starts with the style header and two newlines, then '# Error' and the message when there is a syntax error |
| CodeToMarkdown.CodeToMarkdownString | CodeChat/CodeToMarkdown.py:66-82 | code_to_markdown_string is the prolog followed by the generated Markdown |
| CodeToPretext.WriteAt | CodeChat/CodeToPretext.py:166-199 | a write at the position keeps the file valid (position within it) and moves the position past the written text |
| CodeToPretext.StringIO.Write | CodeChat/CodeToPretext.py:133 | write returns the number of characters written and updates contents and position as WriteAt says |
| CodeToPretext.StringIO.Seek | CodeChat/CodeToPretext.py:135-198 | seek moves the position and leaves the contents alone |
| CodeToPretext.OpenedOpens | CodeChat/CodeToPretext.py:117-163 | after the entry rule, the first line of a comment run opens a paragraph |
| CodeToPretext.PretextKeepsNl | CodeChat/CodeToPretext.py:166-168 | escaping code and indenting comments keep a line's final newline |
| PyText.EscapeNoBrackets | CodeChat/CodeToPretext.py:167 | html.escape(s, False) replaces only &, < and >, and introduces no < or > |
| CodeToPretext.ExitAt | CodeChat/CodeToPretext.py:181-202 | leaving a state keeps the file valid; what it writes (the last newline turned into '</p>' and a newline unless the line ends with a closing tag) is stated over whole runs by PretextIsPieces |
| CodeToPretext.StepLine | CodeChat/CodeToPretext.py:143-172 | one pass (exit with the incoming line's string, entry on a type change, then the line) leaves the file in the state the next line's type expects |
| CodeToPretext.Run | CodeChat/CodeToPretext.py:143-175 | running the remaining lines, the final exit getting the last line's string, leaves a valid file; its contents are PretextIsPieces |
| CodeToPretext.ExitState | CodeChat/CodeToPretext.py:181-202 | _exit_state on the file does what ExitAt says |
| CodeToPretext.GenerateLine | CodeChat/CodeToPretext.py:143-172 | one pass of the loop does what StepLine says and returns the line after the entry rule |
| CodeToPretext.GeneratePretext | CodeChat/CodeToPretext.py:124-175 | _generate_pretext probes the newline width, then leaves the file as Run from state −2 |
| CodeToPretext.PretextIsPieces | CodeChat/CodeToPretext.py:124-202 | when every line ends with a newline, the output is the lines' pieces in order: code escaped, comments indented, each comment run opened with <p> and its last newline turned into '</p>' unless the next line closes it |
| CodeToPretext.CommentExample | CodeChat/CodeToPretext.py:159-199 | an unindented one-line comment becomes one paragraph |
| CodeToPretext.TaggedCommentExample | CodeChat/CodeToPretext.py:162-196 | a comment that carries its own tags keeps them, indented by its indent |
| CodeToPretext.CodeExample | CodeChat/CodeToPretext.py:156-168 | code is escaped and gets no tags |
| CodeToPretext.WriteHead | CodeChat/CodeToPretext.py:67-71 | the file holds the warning (when there is a syntax error) and the opening tags, positioned at its end |
| CodeToPretext.CodeToPretextString | CodeChat/CodeToPretext.py:55-74 | code_to_pretext_string is the warning, then the lines inside <program><input> … </input></program> |
| RestToCode.LanguageCommentType | CodeChat/RestToCode.py:75-89 | whether the language has inline comments, and whether it has block comments |
| RestToCode.FormulateBlockComment | CodeChat/RestToCode.py:127-166 | (definition: without a line counter both delimiters, no space before the closing one; in block mode the opening delimiter at position == line_counter, ' * ' when position > 0, the closing delimiter at position 0) every formulated line holds the line plus at least two characters and ends with a newline |
| RestToCode.FormulateComment | CodeChat/RestToCode.py:90-126 | the result is missing (the assert fails) exactly when a block comment is asked for and the language has neither comment kind; an inline request always succeeds; whenever the inline form is used (asked for and available, or a block asked for and unavailable) the line is '{inline} {line}\n' |
| RestToCode.ScaffoldFits | CodeChat/RestToCode.py:232-311 | a chain of `or` tests passes exactly when every line it tests exists and matches |
| RestToCode.AfterSpace | CodeChat/RestToCode.py:239-240 | the text after the first space, shorter than the line; no result is the IndexError of a line without a space |
| RestToCode.FenceStep | CodeChat/RestToCode.py:230-259 | (definition: check the scaffolding, emit each line up to the ending fence without the text up to its first space) a pass that continues moves forward, at most to the end of the lines |
| RestToCode.DivStep | CodeChat/RestToCode.py:262-306 | (definition: read the margin, emit each inner line as an inline comment after int(2·margin) spaces) a pass that continues moves forward, at most to the end of the lines |
| RestToCode.SetLineStep | CodeChat/RestToCode.py:309-358 | (definition: count the comment lines and formulate them, as one block comment when there are 10000 or more) a pass that continues moves forward, at most to the end of the lines |
| RestToCode.Step | CodeChat/RestToCode.py:224-367 | one pass dispatches on the directive in the next line; a pass that continues moves forward within the lines, so the while loop ends |
| RestToCode.MakeSpaces | CodeChat/RestToCode.py:290-292 | the loop builds `size` spaces |
| RestToCode.FenceLines | CodeChat/RestToCode.py:237-243 | the inner fence loop emits what FenceScan says |
| RestToCode.FenceBranch | CodeChat/RestToCode.py:230-259 | the fence branch does what FenceStep says |
| RestToCode.DivLines | CodeChat/RestToCode.py:289-297 | the inner div loop emits what DivScan says |
| RestToCode.DivBranch | CodeChat/RestToCode.py:262-306 | the div branch does what DivStep says |
| RestToCode.CountCommentLines | CodeChat/RestToCode.py:317-328 | the counting loop does what CountLines says, the except clause ending it at the last line |
| RestToCode.FormulateRun | CodeChat/RestToCode.py:340-354 | the formulating loop does what CommentRun says, formulating the last line in the except clause |
| RestToCode.SetLineBranch | CodeChat/RestToCode.py:309-358 | the set-line branch does what SetLineStep says |
| RestToCode.Pass | CodeChat/RestToCode.py:227-367 | one pass of the try body does what Step says |
| RestToCode.RestToCodeString | CodeChat/RestToCode.py:209-375 | the result is the code the reST describes, or the code so far followed by the error sentence when a scaffolding line is missing |
| RestToCode.TabExpansion | CodeChat/RestToCode.py:219 | tab expansion turns each tab into four spaces and changes nothing else |
| RestToCode.TabIsFourSpaces | CodeChat/RestToCode.py:219 | a tab anywhere in the reST reads as four spaces |
| RestToCode.NoDirectiveIsError | CodeChat/RestToCode.py:362-373 | a one-line text with no directive line after it gives the error sentence |
| RestToCode.BadFenceIsError | CodeChat/RestToCode.py:232-373 | a fenced-code directive without the empty line and the beginning fence gives the error sentence |
| RestToCodeRoundTrip.Agree | CodeChat/RestToCode.py:230-252 | the scaffolding _generate_rest writes (CodeToRest.py:1290, 1334) is the scaffolding the parser looks for |
| RestToCodeRoundTrip.DoubledHalf | CodeChat/RestToCode.py:275-278 | float(str(0.5·t))·2, truncated, gives t back |
| RestToCodeRoundTrip.MarginOfDiv | CodeChat/RestToCode.py:271-278 | the margin the div line announces is read back as the indent it came from |
| RestToCodeRoundTrip.CodeRunParsed | CodeChat/RestToCode.py:230-259 | a code run's writes are read back by the fence branch as its lines |
| RestToCodeRoundTrip.DivRunParsed | CodeChat/RestToCode.py:262-306 | an indented comment run's writes are read back by the div branch as inline comments at its indent |
| RestToCodeRoundTrip.CommentRunMid | CodeChat/RestToCode.py:309-358 | an unindented comment run followed by code is read back by the set-line branch |
| RestToCodeRoundTrip.CommentRunLast | CodeChat/RestToCode.py:309-358 | an unindented comment run at the end is read back by the set-line branch |
| RestToCodeRoundTrip.RenderedRoundTrip | CodeChat/RestToCode.py:209-375 | the main loop reads the reST of the runs back as the code of every run, in order |
| RestToCodeRoundTrip.RoundTrip | CodeChat/CodeToRest.py:1264-1340 | the reST _generate_rest writes for classified lines, given to rest_to_code_string, gives back each code line verbatim and each comment formulated at its indent, plus one empty comment after a final comment run at indent 0, for the lines ReadableLines admits (see "## Left out") |
| PyText.Slice | CodeChat/CodeToRest.py:921 | s[lo:hi] with Python's negative and clipped bounds is never longer than s |
| PyText.SplitLines | CodeChat/SourceClassifier.py:591 | str.splitlines(True) gives only non-empty lines, and none exactly for the empty string |
| PyText.SplitLinesConcat | CodeChat/SourceClassifier.py:591 | joining the lines of s gives s |
| PyText.Split | CodeChat/RestToCode.py:221 | s.split(c) gives at least one piece and no piece holds c |
| PyText.SplitJoin | CodeChat/RestToCode.py:221 | splitting the join of c-free pieces gives the pieces back |
| PyText.NatStr | CodeChat/CodeToRest.py:1307 | str(n) for a natural n is a non-empty string of decimal digits |
| PyText.NatStrValue | CodeChat/CodeToRest.py:1307 | reading the digits str(n) writes gives n back |
| PyText.HalfStr | CodeChat/CodeToRest.py:1294-1296 | str(0.5·t) has a decimal point before its last digit ("k.0" or "k.5") |
| PygmentsToken.CommentsAreNotText | CodeChat/SourceClassifier.py:538-560 | no comment type lies under Token.Text or Token.Whitespace |
| PygModule.ExpandNl | pyg_module.py:105-112 | _expand_nl gives at least one and at most two tokens per input token |
| PygModule.ExpandNlSplits | pyg_module.py:107-109 | a Comment.Single ending in '\n' becomes the comment without it, then a Text '\n' |
| PygModule.ExpandNlKeeps | pyg_module.py:110-111 | every other token passes through unchanged |
| PygModule.ExpandNlSpelled | pyg_module.py:105-112 | splitting off the newline changes no character of the text |
| PygModule.MergeToken | pyg_module.py:130-238 | one iteration of the generator's loop, on a token it does not reject, moves the machine exactly as Step does |
| PygModule.Step | pyg_module.py:130-238 | one iteration in each state; None exactly when an assert would fail; otherwise the stack holds what the state allows (empty in states 0 and 5, at most four tokens) |
| PygModule.StepSpelled | pyg_module.py:185-217 | every step adds exactly the token's text: merges only move text into the first comment |
| PygModule.FeedSpelled | pyg_module.py:130-242 | _merge_comments yields exactly the text it was given, and a prefix of it when an assertion stops it |
| PygModule.MergeSpelled | pyg_module.py:122-242 | the merged stream spells the input stream |
| PygModule.MergesUnindented | pyg_module.py:185-191 | two unindented comment lines separated only by '\n' merge into one comment 'c1\nc2' |
| PygModule.MergesSameIndent | pyg_module.py:210-217 | comment lines with the same indent merge, the second indent going into the comment |
| PygModule.KeepsOtherIndent | pyg_module.py:218-226 | comment lines with different indents stay apart: the stream comes out unchanged |
| PygModule.KeepsIndentedAfterUnindented | pyg_module.py:181-206 | an unindented comment is not merged with an indented one after it |
| PygModule.BlankLineSeparates | pyg_module.py:201-206 | a blank line between two comments keeps them apart |
| PygModule.PassesRestOfLine | pyg_module.py:233-236 | in state 5 tokens pass unchanged until a '\n', after which the machine is at a line start |
| PygModule.MergeComments | pyg_module.py:122-242 | the generator run as a loop gives MergeRun's outcome |
| Pyg.MergeToken | pyg.py:251-331 | one iteration of the generator's loop moves the machine exactly as Step does |
| Pyg.Step | pyg.py:251-331 | one iteration in each state keeps the stack invariant: empty in states 0 and 5, at most four tokens |
| Pyg.AtLineStart | pyg.py:251-265 | state 0, at a line start (a '\n' is yielded at once, a blank or a comment is stacked, anything else starts a code line), keeps the stack invariant |
| Pyg.AfterBlank | pyg.py:266-281 | state 1, after a line's leading whitespace, keeps the stack invariant |
| Pyg.AfterComment | pyg.py:282-291 | state 2, after a comment, keeps the stack invariant |
| Pyg.AfterCommentLine | pyg.py:292-307 | state 3, after the newline that ends a comment line (a comment here is folded in), keeps the stack invariant |
| Pyg.AfterNextBlank | pyg.py:308-325 | state 4, after the next line's whitespace (a comment here is folded in whatever its indent), keeps the stack invariant |
| Pyg.InCodeLine | pyg.py:326-329 | state 5, passing tokens until a newline, keeps the stack invariant |
| Pyg.MergeComments | pyg.py:235-335 | the generator run as a loop gives MergeRun's output |
| Pyg.StepSpelled | pyg.py:296-319 | every step adds exactly the token's text |
| Pyg.MergeSpelled | pyg.py:235-335 | the merged stream spells the input stream |
| Pyg.MergesLines | pyg.py:655-658 | "# comment1\n# comment2" becomes one comment |
| Pyg.MergesOtherIndent | pyg.py:308-319 | as written, two indented comment lines merge even when their indents differ (the bug the file's notes at lines 71-72 list) |
| Pyg.BlankLineSeparates | pyg.py:659-663 | a blank line keeps the comments apart |
| Pyg.EmptyLinesPass | pyg.py:255-259 | in state 0 a newline is yielded at once and the machine stays at a line start |
| Pyg.FormatLinesAt | pyg.py:223-230 | a code line ending in '\n' becomes '<pre>' + line[:-1] + '</pre>\n'; every other item is unchanged |
| HtmlEdit.LeadLen | html_edit.py:388 | the regular expression's leading whitespace is the longest blank prefix |
| HtmlEdit.StripLines | html_edit.py:388-431 | the substitution applied to every line keeps the line count |
| HtmlEdit.StripsDelimiter | html_edit.py:388-431 | a line's indent followed by "// " loses exactly the delimiter and that space |
| HtmlEdit.IndentOfDelimited | html_edit.py:388-429 | the indent recorded for such a line is exactly its leading whitespace |
| HtmlEdit.MarkerParagraphs | html_edit.py:433-439 | one marker paragraph per indent character, each indented one more |
| HtmlEdit.Resolved | html_edit.py:407-410 | a line's resolved type is never whitespace-only, and a code or comment line keeps its own type (a whitespace-only line takes the previous line's) |
| HtmlEdit.EndLine | html_edit.py:403-449 | the newline branch clears the buffer, starts a whitespace-only line and records whether the line just ended, its type resolved, was code |
| HtmlEdit.WriteLine | html_edit.py:411-449 | the newline branch built with insert(0, …) writes what EndLine says |
| HtmlEdit.FormatToken | html_edit.py:391-453 | one token of the loop: whitespace and comments are collected, a newline ends the line, and anything else makes the line code |
| HtmlEdit.FormatBody | html_edit.py:375-453 | _format_body writes FormatRun of the tokens |
| HtmlEdit.AbsorbLine | html_edit.py:393-453 | within a line the loop only collects: the buffer gains the tokens' values, nothing is written, and the line type follows the tokens |
| HtmlEdit.WholeLine | html_edit.py:391-453 | a whole line writes LineText of its joined tokens under the line's type |
| HtmlEdit.CodeLine | html_edit.py:411-453 | a line holding a code token is written as code after one space; the first code line after comment text is preceded by the code header, later ones by '\n' |
| HtmlEdit.CommentLine | html_edit.py:423-439 | a line with a comment and no code is written as text after '\n', preceded by the marker paragraphs when it follows code |
| HtmlEdit.BlankLineInherits | html_edit.py:407-410 | after the first line, a whitespace-only line takes the previous line's type |
| HtmlEdit.OneCommentLine | html_edit.py:362-453 | a file holding `// text` and its newline becomes the text alone after a newline |
| MruFiles.Remove | CodeChat/CodeChatUtils.py:99 | list.remove of a present f takes away exactly one entry; RemoveAt says which |
| MruFiles.RemoveAt | CodeChat/CodeChatUtils.py:99 | remove deletes exactly the entry at the first index of f |
| MruFiles.AddedOrder | CodeChat/CodeChatUtils.py:97-103 | after add_file(f), f is at index 0 and the other entries follow in their old order, cut only by the trim |
| MruFiles.AddedOnce | CodeChat/CodeChatUtils.py:98-100 | f occurs exactly once afterwards when it occurred at most once before |
| MruFiles.AddedBounded | CodeChat/CodeChatUtils.py:50-103 | a list of at most max_files entries stays within max_files, and a full list drops its oldest entry |
| MruFiles.AddedDistinct | CodeChat/CodeChatUtils.py:97-103 | add_file keeps a duplicate-free list duplicate-free |
| MruFiles.MruFiles.constructor | CodeChat/CodeChatUtils.py:44-66 | max_files actions, all hidden, then update_gui, which displays a stored list of at most max_files entries |
| MruFiles.MruFiles.UpdateGui | CodeChat/CodeChatUtils.py:110-120 | action i shows '&i name' with the name as data and is visible for i < len(list); the rest are hidden; a list longer than the actions raises IndexError |
| MruFiles.MruFiles.AddFile | CodeChat/CodeChatUtils.py:95-107 | the stored list becomes Added(old, f, 10), and the menu displays it |
| MruFiles.MruFiles.OpenMru | CodeChat/CodeChatUtils.py:68-77 | a file is opened exactly when the list is non-empty and its first entry exists, and that file is the first entry |

## Left out

- GUI and Qt. The following are not part of this model:
  - `MyQMainWindow` in html_edit.py and CodeChat/CodeChat.py;
  - the QAction shortcut and `triggered` wiring in `MruFiles.__init__`;
  - `mru_triggered`.

  Settings are a plain field, and `os.path.exists` becomes the set of existing files passed to `OpenMru`.
- Libraries whose code is not part of this model. Their results are inputs:
  - Pygments lexing and preprocessing;
  - docstring detection with `ast` and `inspect.cleandoc`, which enters as a map from lines to rewritten strings;
  - docutils, lxml and BeautifulSoup (`html_to_code_string`, `HtmlToCodeTranslator`);
  - Pygments' HtmlFormatter internals (`_format_lines1`);
  - TRE fuzzy matching (`find_approx_text*`).
- File, console and network I/O are not part of this model. This covers:
  - the `code_to_*_file` and `rest_to_code_file` functions;
  - agrepy's standalone `main` and `printnstring`;
  - debug printing, including `first_text_pos` in `verify`, which only feeds a debug print.
- Floating point. Three uses become integer arithmetic:
  - `INCRPAIRS` 1.5 is ×3/2 with truncation;
  - the margin `0.5*type` is rendered as "k.0" or "k.5";
  - the margin parse `float(...)` is a decimal reading. RestToCode.DoubledDecimal and RestToCode.Margin accept digits with at most one decimal point. They reject forms Python's float() accepts, such as " 1.5", "+1", "1E5" and "1_0", which _generate_rest never writes.
- SourceClassifier.ClassifyGroups: requires every COBOL inline comment to have a column 7 (at least 7 characters). A shorter one, such as `*>x\n`, makes `_remove_comment_delim` raise IndexError at SourceClassifier.py:964. That raise is not modelled.
- SourceClassifier.ClassifyOne: requires the same COBOL column 7 as ClassifyGroups, so the IndexError case is not modelled here either.
- SourceClassifier.CommentTextOf: requires the same COBOL column 7, and so does SourceClassifier.IsRestCommentCases. The IndexError case is left out of both.
- Lagrepy.Advance: `A[last+1] = A[last++]+1` at lagrepy.c:83 (and its B twin) reads and writes `last` without a sequence point, which is undefined in C. The model takes the evident reading: A[old + 1] = A[old] + 1, then last = old + 1.
- PyText.Lower: folds ASCII letters only. str.lower also folds other letters, but the delimiters it is compared with (such as `rem`) are ASCII.
- Lagrepy.ExecLagrepy: takes a `fuel` bound on its scan steps. The C loop's progress depends on verify's return value, which can lie at or before oldtext, so termination is not shown. Agrepy.Agrepy inherits the bound.
- SagrepyExec.ExecSagrepy: requires text of at most MAXTEXT (26000) symbols, so the windows fit the 2048 slots of `Candidate`. It also requires 1 ≤ m ≤ 255, because with m = 0 the first shift is −1. With SHORT_LONG = 1 and a clamped budget, m = M/(D+1) is 0; see the Findings row for agrepy.h:11.
- SagrepyTables.SagrepyCompile: requires 1 ≤ patlen ≤ 32. initmask with m = 0 shifts by −1, and Bit1 >> j for j ≥ 32 is undefined in C.
- Bytes are 0..255 throughout: a C `char` above 127 would index the tables negatively. Patterns for the long engine are NUL-free, as strlen and the backward scan assume.
- StartPos.FindStartPosMain: the recursions at sagrepy.c:128-129 and 137-138 step textend down without a lower bound, so sagrepy.c:112 can read text[−1] and before. The model reads NUL there; in the C the read is undefined.
- SagrepyExec.Jump: the skip loop at sagrepy.c:224-226 can step past the terminator, up to 254 beyond the text, and the hash at sagrepy.c:228-229 reads up to two symbols before the landing. The model reads NUL outside the text; in the C those reads are undefined.
- Lagrepy.ScanBack: `*text--` at lagrepy.c:199-203 can run before textbegin, and the step at lagrepy.c:197 can land past the terminator. The model reads NUL there; in the C the reads are undefined.
- The `Candidate[1][0] < 0` clip at sagrepy.c:249-250 is not modelled separately. The per-round clip at 258-259 has the same effect.
- PygModule.ExpandNl models html_edit.py's `_expand_nl` (html_edit.py:366-373) as well, because the two are the same code.
- RestToCodeRoundTrip.RoundTrip: holds for the lines `ReadableLines` admits. It excludes:
  - a comment run at indent 0 followed directly by an indented comment run. The counting and formulating loops at RestToCode.py:319-328 and 339-354 read up to the next `.. fenced-code::`, so the div markup of the indented run comes back as comment lines;
  - a tab anywhere in a line: RestToCode.py:219 turns each into four spaces;
  - a last line without its final newline, or a line with another newline inside: the parser splits on newlines (RestToCode.py:221);
  - a line whose text is the scaffolding the parser looks for: a code line `Ending fence` (RestToCode.py:237), an indented comment `.. raw:: html` (RestToCode.py:289), or a comment at indent 0 `.. fenced-code::` (RestToCode.py:320, 340);
  - a first line of type −2, the start value of `current_type` (CodeToRest.py:1273), which the classifier never gives.
  A document ending in a comment run at indent 0 is covered: the except path formulates the empty last piece of the split, and the model's result includes that extra empty comment.
- PyText.HalfStr: exact for t ≤ 2^53. The Python multiplies by the float 0.5, so t is first rounded to a double, and above 2^53 that rounding loses the last digit.
- The older `_group_lexer_tokens` and `_group_for_tokentype` copies in CodeChat/CodeToRest.py are the same as SourceClassifier.py's. Only the steps that differ are modelled separately: gathering by lengths, delimiter removal by lengths, reST test by lengths, and classification.

## Findings

| source | as written | input that shows it | evidently intended | confidence | as-written member | corrected member |
|---|---|---|---|---|---|---|
| agrepy_1.2/agrepy.h:11 | SHORT_LONG is 1, so the short engine gets only one-symbol patterns, and compile clamps their budget to D ≥ 1 | any one-symbol pattern: m = 1/(D+1) = 0, and exec_sagrepy's first shift m − 1 = −1 reads text[−1] (sagrepy.c:195, 221-224); a two-symbol pattern gets the long engine with step m − 1 − D ≤ 0 | the threshold of 24 given at agrepy.c:5 and lagrepy.c:1-2 | not executed | Agrepy.ShortEngineFragmentEmpty | Agrepy.IntendedThresholdFits |
| agrepy_1.2/agrepy.c:75 | the long engine runs for every pattern of at most MAXPATLEN (256) symbols, but verify writes A[0..m+1] and B[0..m+1] into arrays of MAXPATLEN ints (lagrepy.c:21, 36-37) | a pattern of 255 symbols: verify writes A[256] | the long engine only for patterns of at most MAXPATLEN − 2 symbols | not executed | Agrepy.LongGuardAdmitsOverflow | Agrepy.Choose |
| pyg.py:308-319 | state 4 folds the next comment into the candidate without comparing the two lines' indentation | "  # a\n    # b": the indents differ, yet the two comments merge | merge only when the indents are identical, as pyg_module.py:210-226 does | not executed | Pyg.MergesOtherIndent | PygModule.KeepsOtherIndent |
| CodeChat/CodeToRest.py:924 | after dropping ws_len − 1 characters from a body or end line, `string[0]` is read without checking that anything is left | C source "    /* a\n       b\nx*/\n": the end line's text "x\n" loses 6 characters, leaving "", so IndexError | test `string and string[0] == ' '`, as SourceClassifier.py:922 does | not executed | CodeToRestClassify.ClassifyLineAsWrittenRaises | CodeToRestClassify.StripBody |
