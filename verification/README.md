# Printer supply and tray monitor — a Dafny model of its core

The Printer Supply & Tray Monitor polls a monitoring web page that lists
printers. For each device it extracts the supply levels, the status texts and
the paper trays reported empty. It then raises low-supply alerts. It also keeps
a persistent record of which trays are open (empty) and when they emptied and
refilled. This project models that core in Dafny and proves properties of the
model:

- **Tail metrics** (`Tail`). The text after a five-digit device id gives a
  device timestamp (`dd/dd/dd hh:mm:ss`). The last ten 1–3 digit numbers give
  the levels of the toners, drums, belt and fuser, in the order K C M Y, drums
  K C M Y, belt, fuser. They are accepted only when all ten are at most 100.
- **Tray detection** (`Trays`). A captured tray token becomes a canonical
  label: "Tray 2", "Tray A", or "Unknown Tray". The labels found in a text are
  returned as a sorted list without duplicates.
- **Page segmentation** (`Records`). A line that starts with a five-digit id
  opens a device record. The lines up to the next id line fill in its
  description, status message, printer text and fuser/belt levels. Each record
  is then finalized: a default description is chosen and the empty trays are
  detected. The segmentation lemmas hold for any recogniser of record-opening
  lines. The page parser uses the five-digit id test.
- **Alerts** (`Alerts`).
  - Black/cyan/magenta/yellow toner and fuser levels at or below their
    thresholds raise alerts. Colour toners are skipped on a device that reports
    C, M and Y all at 0.
  - A status text that says "low toner", "low ink" or "low fuser" also raises
    an alert.
  - Alerts are deduplicated across the page on (device, item, "level" or
    reason), then stably sorted by (device id, item).
- **Current empties** (`Snapshot`). Each empty tray of each record is keyed
  `<id>::<tray>`. A later record overwrites an earlier entry in place.
- **State store** (`Store`).
  - `reconcile` turns the open trays into exactly the current ones. Each tray
    keeps the time it first emptied. An "empty" event is logged for each newly
    empty tray and a "filled" event for each tray no longer reported.
  - `manual_mark_filled` closes one tray by hand.
  - The history is capped at the newest 20000 events.
  - `load` falls back to an empty state when the file is missing, cannot be
    read or is not JSON. A file that is not UTF-8 raises instead (see
    Findings).

Support modules:

- `Wrappers`: `Option`.
- `Text`: ASCII character classes, Python's `isspace` set, `strip`,
  lower/upper case, decimal conversion, code-point string order.
- `Dict`: a Python dict as an insertion-ordered list of distinct keys. Dict
  order decides the order of the event log.
- `Seqs`: shared sequence facts, and the concatenation of a list of lists.

All sources are in `main.py`.

Behaviour worth knowing, as the code has it:

- `normalize_tray("TRAY-B")` yields "Tray -B": the token filter keeps the
  hyphen and nothing strips it later.
- `reconcile` logs a newly empty tray with event type "empty" and note
  "detected by monitor".
- The `Fuser:` / `Belt:` line values are not range-checked. Any 1–3 digit
  value (up to 999) is stored. Only the tail's ten levels are limited to 100.
- The final filter `printer_id.isdigit()` never removes a record, because
  every id is five digits (`Records.SegmentIdsAreNumeric`).

## Model

| member | source | states |
|---|---|---|
| Tail.NumberTokens | main.py:259 | `re.findall(r"\b(\d{1,3})\b")` as integers: each found number is below 1000 |
| Tail.NumberTokensSplit | main.py:259 | numbers are found word by word: two texts joined by a non-word character yield the first text's numbers followed by the second's |
| Tail.TimestampAt | main.py:255 | a timestamp match starting at a position covers at least 17 characters and ends inside the text |
| Tail.TailLevels | main.py:259-275 | levels are present exactly when there are at least ten numbers and the last ten are all at most 100; then all ten channels are set, bound in order K C M Y, drums, belt, fuser to the last ten numbers; otherwise no levels |
| Tail.ParseTailMetrics | main.py:251-277 | the levels are those of the text's number tokens; the update time is empty exactly when no timestamp occurs, and otherwise is the first timestamp verbatim |
| Trays.KeepTokenChars | main.py:281 | dropping every character outside `[A-Za-z0-9-]` leaves only token characters and keeps a text made only of them |
| Trays.NormalizeTray | main.py:280-290 | the label is "Unknown Tray" exactly when the filtered token is empty; otherwise it starts with "Tray " |
| Trays.NormalizeTrayShape | main.py:284-290 | a specific label is "Tray " followed by a non-empty suffix of upper-case letters, digits and hyphens |
| Trays.NormalizeTrayIdempotent | main.py:280-290 | normalizing a normalized label gives the same label |
| Trays.NormalizeTrayDropsLeadingZeros | main.py:286-289 | "tray07" becomes "Tray 7": the TRAY prefix is dropped and the number loses its leading zero |
| Trays.NormalizeNumberDropsLeadingZeros | main.py:284-285 | a bare number "07" becomes "Tray 7" |
| Trays.NormalizeTrayBareTray | main.py:287 | a token that is just "TRAY" becomes "Tray UNKNOWN" |
| Trays.NormalizeTrayKeepsHyphen | main.py:281-290 | "TRAY-B" becomes "Tray -B": the hyphen survives |
| Trays.NormalizeTrayNoToken | main.py:281-283 | a capture becomes "Unknown Tray" exactly when it has no letter, digit or hyphen |
| Trays.KeepTokenCharsCounts | main.py:281 | the filter keeps each letter, digit and hyphen as often as it occurs and drops every other character |
| Trays.KeepTokenCharsEmpty | main.py:281-283 | the filtered token is empty exactly when the capture has no token character |
| Trays.NormalizeTrayNumber | main.py:284-285 | any all-digit capture becomes "Tray " and its number, without leading zeros |
| Trays.NormalizeTrayPrefixedNumber | main.py:286-289 | "tray" in any case followed by digits becomes "Tray " and the number after the prefix, without leading zeros |
| Trays.KeepTokenCharsAppend | main.py:281 | the character filter works character by character: it distributes over concatenation |
| Trays.InsertSorted | main.py:294-304 | adding to the set of labels: the list stays strictly sorted and gains exactly the new label |
| Trays.SortedSet | main.py:309 | `sorted(set)`: strictly sorted, with exactly the input's elements |
| Trays.StrictlySortedUnique | main.py:309 | two strictly sorted lists with the same elements are equal, so the sorted label list is determined by the label set |
| Trays.NormalizeAllElems | main.py:302-304 | the normalized captures are exactly the labels of the captured tokens |
| Trays.DetectEmptyTrays | main.py:293-309 | strictly sorted; holds exactly the labels of all captures, plus "Unknown Tray" only when nothing was captured and a generic "paper out"/"tray empty" phrase occurs |
| Records.IdLine | main.py:317-327 | an id line begins with five ASCII digits not followed by a word character; the id is those digits and the tail is the stripped rest |
| Records.AfterFirstColon | main.py:342 | `split(":", 1)[1]`: a proper suffix of the line, the text after a colon |
| Records.AfterFirstColonIsFirst | main.py:342 | the colon that suffix follows is the line's first: no colon comes before it |
| Records.PercentAt | main.py:348-349 | a matched fuser/belt percentage has at most three digits, so it is below 1000 |
| Records.FindPercentIsLeftmost | main.py:348-349 | `re.search`: no value exactly when no position matches; otherwise the value matched at the leftmost matching position |
| Records.OpenRecord | main.py:326-334 | a new record carries the line's id and tail, the levels and device time that `parse_tail_metrics` gives for the tail, empty texts and no trays |
| Records.ApplyLineField | main.py:340-346 | a `Description:`, `Status Message:` or `Printer Text:` line sets only its own field, to its value; other lines leave the field; id and tail never change |
| Records.ApplyLinesAppend | main.py:319-353 | applying lines in two batches is applying them all in order |
| Records.ApplyLinesKeepsField | main.py:340-346 | lines that do not name a field leave it unchanged |
| Records.LastFieldLineWins | main.py:340-346 | with repeated field lines, the last one wins |
| Records.ApplyLinesKeepsHead | main.py:337-353 | field lines never change the record's id or row tail |
| Records.FuserLineSetsLevels | main.py:347-353 | a `Fuser:` line sets the fuser level to its leftmost `fuser: NN%` value and the belt level to its leftmost `belt: NN%` value, each only when present; every other level and field is unchanged |
| Records.OtherLineKeepsLevels | main.py:340-346 | a line that does not start with `fuser:` leaves the levels unchanged |
| Records.LevelsOnlyFromFuserLines | main.py:326-353 | without a `Fuser:` line, the record keeps the levels of its row tail |
| Records.Informatives | main.py:373-377 | the texts joined for tray detection are exactly the non-empty ones other than "none"/"n/a" (any case); a single text is kept or dropped as a whole |
| Records.InformativesAppend | main.py:373-377 | the filter keeps order and multiplicity: filtering a concatenation filters each part |
| Records.TrayTextParts | main.py:373-377 | the tray text is the status message, the printer text and the row tail, in that order, joined by single spaces, each left out when empty, "none" or "n/a" |
| Records.Finalize | main.py:364-378 | the description is never empty: an existing one is kept, else the tail before its first timestamp, else "Printer <id>"; only description and trays change; the trays are those `detect_empty_trays` finds in the tray text, strictly sorted |
| Records.FieldRunStopsAtIdLine | main.py:319-338 | the lines that follow an id line up to the next id line: none of them opens a record, and the run ends at the next id line or at the end of the page |
| Records.FinalizeKeepsHead | main.py:364-378 | finalizing keeps the id and row tail |
| Records.Heads | main.py:326-331 | the (id, tail) of each record, in order |
| Records.IdLinesOfFieldRun | main.py:337-338 | the lines before the first id line contribute no record |
| Records.SegmentsAtIdLine | main.py:321-335 | an id line opens a record with its id and tail; the remaining records come from after that record's lines |
| Records.SegmentsFollowIdLines | main.py:319-357 | the page yields one record per id line, in input order, with that line's id and tail; nothing else opens a record and no id line is lost |
| Records.LeadingLinesIgnored | main.py:337-338 | lines before the first id line do not change the result |
| Records.SegmentIdsAreNumeric | main.py:317 | every record's id is five ASCII digits |
| Records.NumericIdsOnly | main.py:359-360 | only records with all-digit ids are kept; when all qualify the list is unchanged |
| Records.ContinueAtIdLine | main.py:321-335 | an id line closes the open record and opens a new one |
| Records.ContinueAtFieldLine | main.py:337-353 | any other line refines the open record, or is skipped while none is open |
| Records.ParseLines | main.py:319-357 | the line loop computes the record segmentation, with every record closed exactly once |
| Records.ParseMonitorPage | main.py:312-361 | the records are the finalized segments, one per id line, in order, with those lines' ids and tails |
| Alerts.LevelAlert | main.py:395-424 | one alert exactly when the level is reported and at or below the threshold, with the record's id and description, the level as "<n>%" and source "threshold <= <t>%" |
| Alerts.TonerAlert | main.py:391-409 | at most one alert per toner channel, named "<Colour> Toner", never at level "reported" |
| Alerts.LevelAlerts | main.py:391-424 | level alerts carry the record's id and description and are never at level "reported" |
| Alerts.FuserAlertIff | main.py:411-424 | a fuser alert is raised exactly when the fuser level is reported and at or below its threshold; its level is that value as "<n>%" and its source names the threshold |
| Alerts.KeywordAlert | main.py:432-445 | one alert exactly when `\blow\s+<word>\b` occurs in the lowered status blob, at level "reported" with the rule's reason |
| Alerts.KeywordAlerts | main.py:426-445 | keyword alerts carry the record's id and description, level "reported" and one of the three reasons |
| Alerts.RecordAlerts | main.py:385-445 | every alert of a record carries that record's id and description |
| Alerts.Dedupe | main.py:383-445 | the kept alerts are candidates whose keys were not already seen; no two share a key; every candidate key is seen or kept |
| Alerts.DedupeAppend | main.py:383-445 | the `seen` set is shared across records: deduplicating a concatenation deduplicates the second part against the first part's keys |
| Alerts.DedupeSingle | main.py:398-409 | a single candidate is kept exactly when its key is unseen |
| Alerts.DedupeIsFirstOccurrences | main.py:383-445 | a candidate is kept exactly when it is the first with its key, compared against an independent first-occurrence definition |
| Alerts.KeyLtTransitive | main.py:447 | the (id, item) order is transitive |
| Alerts.Insert | main.py:447 | inserting into a sorted list keeps it sorted and adds exactly one alert |
| Alerts.SortAlerts | main.py:447 | sorted by (id, item) and a permutation of the input |
| Alerts.SortAlertsStable | main.py:447 | the sort is stable: alerts with equal (id, item) keep their relative order |
| Alerts.BuildLowAlerts | main.py:381-447 | the result is sorted by (id, item); no two alerts share a key; every alert is a candidate; every candidate key is represented |
| Alerts.PermutationKeepsDistinctKeys | main.py:447 | sorting keeps keys distinct |
| Alerts.TonerAlertIff | main.py:391-397 | a toner alert is raised exactly when the level is at or below the threshold and the channel is not a colour on a monochrome-like device |
| Alerts.MonoLikeOnlyBlackAndFuser | main.py:386-393 | a device reporting C, M and Y all at 0 gets level alerts only for black toner and the fuser |
| Alerts.LevelAlertsDistinctItems | main.py:391-424 | one record's level alerts are for different items |
| Alerts.KeywordAlertsDistinctItems | main.py:427-445 | one record's keyword alerts are for different items |
| Alerts.RecordAlertsDistinct | main.py:391-445 | one record's alerts never share a key, so deduplication only removes alerts repeated across records |
| Alerts.RecordAlertsAreCandidates | main.py:385 | every alert of every record is a candidate |
| Alerts.CandidateOrigin | main.py:385-445 | every candidate comes from one of the records |
| Alerts.AlertsComeFromRecords | main.py:400-439 | every reported alert carries the id and description of a record on the page |
| Alerts.FuserLevelAndKeywordCoexist | main.py:411-445 | a low fuser level and a "low fuser" status both produce an alert for the device: their keys differ |
| Alerts.LowTonerMentioned | main.py:426-433 | the status "Low Toner" matches the low-toner rule after lower-casing |
| Snapshot.TrayKey | main.py:455 | the key reads back as the device id, then "::", then the tray |
| Snapshot.TrayKeyInjective | main.py:455 | for one device, different trays have different keys |
| Snapshot.AddTraysSpec | main.py:454-464 | adding a record's trays adds exactly their keys, each mapped to the record's entry for that tray, and leaves other keys alone |
| Snapshot.AddTraysKeepsFresh | main.py:456-464 | new entries sit under their own key with no timestamps |
| Snapshot.BuildCurrentEmpties | main.py:450-466 | a dict with distinct keys, exactly the keys of all records' empty trays |
| Snapshot.SnapshotIsFresh | main.py:456-464 | every entry of the snapshot sits under its own key and has no `since` or `last_seen` yet |
| Snapshot.SnapshotKeepsFirstSeenOrder | main.py:450-466 | adding a record keeps every earlier key at its position and appends, after them, the record's keys not yet present, in its trays' order, each once |
| Snapshot.AddTraysKeySeq | main.py:453-455 | the inner loop's assignments leave the old keys in place and append each new tray key once, in the trays' order |
| Snapshot.SnapshotKeysFirstSeen | main.py:450-466 | the snapshot's keys, in order, are the page's tray keys at their first occurrence, whichever record repeats them later |
| Snapshot.LaterRecordWins | main.py:453-456 | a later record's trays overwrite earlier entries; all other keys keep the earlier entries |
| Store.LoadAsWritten | main.py:128-138 | as written: a missing file, a read error or invalid JSON gives the empty state; a parsed document is taken as is; a file that is not UTF-8 raises |
| Store.NonUtf8StateFileEscapes | main.py:132-133 | a state file that is not valid UTF-8 makes `load`, and with it the store's constructor, raise |
| Store.LoadState | main.py:128-138 | as intended: a parsed document is taken as is; every other outcome gives the empty state, so loading never fails |
| Store.LoadStateAgreesWhenLoaded | main.py:128-138 | the intended `load` gives the same state as the written one whenever that one returns |
| Store.EventFor | main.py:201-214 | an event copies the item's id, description, tray, status message and printer text, writing a missing `since`/`last_seen` as "" |
| Store.TrimEvents | main.py:216-219 | at most 20000 events, the newest ones; unchanged when within the cap; exactly 20000 when over it |
| Store.TrimEventsIdempotent | main.py:216-219 | trimming twice equals trimming once |
| Store.OpenPass | main.py:160-171 | the first loop's open trays hold, as a set, exactly the keys seen so far, each stamped (their order is stated by `Store.OpenPassOpen`); every event it logs is an "empty" event at the scan time |
| Store.OpenPassOpen | main.py:156-171 | the first loop's open trays are exactly the current trays, each stamped (opened, or carried with its earlier since), in snapshot order |
| Store.OpenPassKeySeq | main.py:156-171 | the first loop's open trays keep the snapshot's key order |
| Store.OpenPassCount | main.py:160-167 | the first loop logs one event per current tray that was not open before |
| Store.OpenPassEvents | main.py:160-167 | the first loop's events are, in snapshot order, one "empty" event per tray not open before, recording that tray's entry with since and last seen set to the scan time |
| Store.FilledPass | main.py:173-178 | the second loop logs as many "filled" events, all at the scan time, as there are previously open trays no longer current |
| Store.FilledPassEvents | main.py:173-178 | the second loop's events are, in the open trays' order, one "filled" event per tray no longer current, recording its stored entry with last seen set to the scan time |
| Store.NewEventsShape | main.py:160-178 | a reconcile logs the "empty" events first, then the "filled" ones, all at the scan time; they are exactly the new trays' "empty" events followed by the gone trays' "filled" events |
| Store.TrayLifecycleEvents | main.py:160-178 | each tray that appears gets an "empty" event carrying its own entry, and each tray that disappears gets a "filled" event carrying its own entry |
| Store.NoOtherEvents | main.py:160-178 | every event a reconcile logs is the "empty" event of a tray that appeared or the "filled" event of one that disappeared |
| Store.Reconcile | main.py:154-184 | the open trays become exactly the current trays in snapshot order, each carried over or opened; the counts are the sizes of the two set differences; the scan time is recorded; the new events are appended and the log trimmed |
| Store.ReconcileFromEmpty | main.py:157-167 | from an empty state, every current tray is new and none is filled |
| Store.ReconcileAgainAddsNothing | main.py:154-184 | reconciling the same tray keys again reports nothing and logs nothing |
| Store.ReconcileSameKeys | main.py:160-178 | reconciling against exactly the open keys counts nothing and leaves the log as it was |
| Store.ReconcileStampsSince | main.py:163-169 | after a reconcile every open tray has a `since` time |
| Store.ReconcileKeepsSince | main.py:168-170 | a tray still open keeps its first-empty time |
| Store.ReconcileAgainKeepsSince | main.py:160-171 | a second reconcile with the same trays keeps every `since` time |
| Store.ManualMarkFilled | main.py:186-199 | a tray is found exactly when it is open; an unknown key changes nothing; otherwise the tray alone is removed, the other open trays keeping their order, and the log becomes the newest 20000 entries of the old log followed by the manual "filled" event with the given time |
| Store.ManualMarkFilledDropsOldest | main.py:197-219 | with the log full, marking a tray filled drops the oldest event: 20000 entries remain, ending with the manual "filled" event |
| Store.ManualFillNotRepeated | main.py:186-199 | a tray closed by hand is not reported filled again by the next scan that misses it |
| Dict.Put | main.py:165-171 | `d[k] = v`: an existing key keeps its position; a new key is appended; only `k`'s value changes |
| Dict.Remove | main.py:188 | `pop(k, None)`: the key's entry is cut out where it stood, so the others keep their order and values; an absent key changes nothing |
| Text.StripLeft | main.py:327 | the leading whitespace is dropped: the result is a suffix starting with a non-space, and everything before it is whitespace |
| Text.StripRight | main.py:327 | the trailing whitespace is dropped: the result is a prefix ending with a non-space, and everything after it is whitespace |
| Text.Strip | main.py:327 | `str.strip()`: no whitespace at either end; empty exactly when the text is all whitespace; a text with no surrounding whitespace is kept |
| Text.StripIsMiddle | main.py:327 | what `strip` keeps is a contiguous middle part of the text, with only whitespace before and after it |
| Text.NatToString | main.py:285 | `str(n)`: ASCII digits without a leading zero |
| Text.DigitsValueOfNatToString | main.py:285 | `int(str(n)) == n` |
| Text.StrLtTransitive | main.py:447 | the code-point string order is transitive |

## Left out

- Fetching the page over HTTP, `html_to_lines` (tag stripping, entity
  unescaping, whitespace collapsing), the Tk user interface, the polling timer
  and threads, and the app-data directory. The page is taken as its list of
  text lines.
- `save` and the JSON encoding: the state is a value, not a file. The clock
  (`now_iso`) is not modelled either: scan and manual times are parameters.
- The three tray-capture regular expressions and the "paper out"/"tray empty"
  fallback search in `detect_empty_trays` (main.py:296-306). A `TrayMatcher`
  parameter yields what they find. Everything after the capture is modelled:
  normalization, the set, the fallback rule and the sort.
- Python's `\d`, `\w` and `\b` match Unicode digits and letters, and
  `lower`/`upper` apply Unicode case mappings. The model treats only ASCII
  digits and letters as digits and word characters, and changes the case of
  ASCII letters only. Whitespace (`\s`, `strip`) follows Python's full
  `isspace` set.
- Dictionaries read from a state file written by another version. Missing
  fields (`.get` defaults such as `prior.get("since", scan_time)`) are modelled
  as `Option` fields of a typed tray item. Keys of unexpected type, `null`
  values, and a file that holds valid JSON other than an object, are not.
- Aliasing: `reconcile` mutates the item dicts of `current_empties` in place.
  The model returns new values, and the caller never looks at the mutated
  items afterwards.
- Alerts.BuildLowAlerts: states the properties of the result (sorted,
  distinct keys, drawn from the candidates, covering every candidate key). It
  does not state the result as a function of the records; that is what
  `Alerts.DedupeIsFirstOccurrences` and `Alerts.SortAlertsStable` pin down
  separately.
- Alerts.LowTonerMentioned: no matching lemma is proved for a text that does
  *not* mention a low supply; the keyword search is modelled exactly, but only
  this positive example is proved.

## Findings

| source | as written | input that shows it | evidently intended | confidence | as-written member | corrected member |
|---|---|---|---|---|---|---|
| main.py:128-138 | `load` catches only `JSONDecodeError` and `OSError`; `read_text(encoding="utf-8")` raises `UnicodeDecodeError` on bytes that are not UTF-8, which escapes `load` and the store's constructor | a state file holding the single byte 0xFF | an unreadable state file resets the state to the empty document, so startup never fails | not executed | Store.LoadAsWritten | Store.LoadState |
