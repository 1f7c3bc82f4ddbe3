/**
 * The record segmenter: `parse_monitor_page` (main.py:312-361) over the page's
 * text lines, and `finalize_record` (main.py:364-378).
 *
 * A record opens on a line that starts with a five-digit device id; the lines
 * after it, up to the next such line, refine that record. Lines before the
 * first id line belong to no record.
 */
module Records {
  import opened Wrappers
  import opened Text
  import opened Tail
  import opened Trays
  import opened Seqs

  datatype PrinterRecord = PrinterRecord(
    printerId: string,
    description: string,
    statusMessage: string,
    printerText: string,
    deviceLastUpdate: string,
    rowTail: string,
    levels: Levels,
    emptyTrays: seq<string>)

  /** Finds what the three tray patterns capture in a text (not modelled). */
  type TrayMatcher = string -> TrayMatches

  /**
   * `^(\d{5})\b(.*)$`: the device id and the stripped remainder when the line
   * starts with five digits that are not followed by another word character.
   */
  function IdLine(line: string): (r: Option<(string, string)>)
    ensures r.Some? ==> |r.value.0| == 5 && IsDigitString(r.value.0)
    ensures r.Some? ==> |line| >= 5 && r.value.0 == line[..5] && r.value.1 == Strip(line[5..])
  {
    if |line| >= 5 && AllDigits(line[..5]) && (|line| == 5 || !IsWordChar(line[5])) then
      Some((line[..5], Strip(line[5..])))
    else
      None
  }

  /** The text after the first colon: `line.split(":", 1)[1]`. */
  function AfterFirstColon(line: string): (r: string)
    requires ':' in line
    ensures |r| < |line| && r == line[|line| - |r|..]
  {
    if line[0] == ':' then line[1..] else AfterFirstColon(line[1..])
  }

  /** The colon that `AfterFirstColon` splits at is the line's first one. */
  lemma {:induction false} AfterFirstColonIsFirst(line: string)
    requires ':' in line
    ensures var r := AfterFirstColon(line);
      line[|line| - |r| - 1] == ':' && ':' !in line[..|line| - |r| - 1]
  {
    if line[0] != ':' {
      AfterFirstColonIsFirst(line[1..]);
      var r := AfterFirstColon(line);
      var n := |line| - |r| - 1;
      assert line[1..][..n - 1] == line[1..n];
      assert line[..n] == [line[0]] + line[1..n];
    }
  }

  /**
   * `re.search(key + r"\s*(\d{1,3})%", line, re.IGNORECASE)` tried at one
   * position: the key (any case), optional whitespace, one to three digits
   * and a percent sign; the digits' value.
   */
  function PercentAt(line: string, key: string, p: nat): (r: Option<nat>)
    ensures r.Some? ==> r.value < 1000
  {
    if p + |key| > |line| || Lower(line[p..p + |key|]) != key then None
    else
      var q := p + |key| + Span(line, p + |key|, IsSpace);
      var d := Span(line, q, IsDigit);
      if 1 <= d <= 3 && q + d < |line| && line[q + d] == '%' then
        DigitsValueBound(line[q..q + d]);
        Some(DigitsValue(line[q..q + d]))
      else
        None
  }

  /** The leftmost labelled percentage on the line, if any. */
  function FindPercent(line: string, key: string): Option<nat> {
    match Leftmost(0, |line|, (p: nat) => PercentAt(line, key, p))
    case Some((_, v)) => Some(v)
    case None => None
  }

  /**
   * `re.search`: no value exactly when no position matches; otherwise the
   * value matched at the leftmost matching position.
   */
  lemma FindPercentIsLeftmost(line: string, key: string)
    ensures var r := FindPercent(line, key);
            && (r.None? <==> forall p :: 0 <= p <= |line| ==> PercentAt(line, key, p).None?)
            && (r.Some? ==> exists p :: 0 <= p <= |line| && PercentAt(line, key, p) == r
                              && forall q :: 0 <= q < p ==> PercentAt(line, key, q).None?)
  {
    var at := (p: nat) => PercentAt(line, key, p);
    assert forall p: nat :: at(p) == PercentAt(line, key, p);
    var found := Leftmost(0, |line|, at);
    assert FindPercent(line, key) == if found.Some? then Some(found.value.1) else None;
  }

  /** What a line after the id line says about the current record. */
  datatype LineKind =
    | DescriptionLine(value: string)
    | StatusMessageLine(value: string)
    | PrinterTextLine(value: string)
    | FuserLine(fuser: Option<nat>, belt: Option<nat>)
    | OtherLine

  lemma ColonOfLoweredPrefix(line: string, prefix: string)
    requires |prefix| > 0 && prefix[|prefix| - 1] == ':'
    requires StartsWith(Lower(line), prefix)
    ensures ':' in line
  {
    assert ToLowerChar(line[|prefix| - 1]) == ':';
  }

  /** The case-insensitive prefix tests of the line loop, in their order. */
  function ClassifyLine(line: string): LineKind {
    var lowered := Lower(line);
    if StartsWith(lowered, "description:") then
      ColonOfLoweredPrefix(line, "description:");
      DescriptionLine(Strip(AfterFirstColon(line)))
    else if StartsWith(lowered, "status message:") then
      ColonOfLoweredPrefix(line, "status message:");
      StatusMessageLine(Strip(AfterFirstColon(line)))
    else if StartsWith(lowered, "printer text:") then
      ColonOfLoweredPrefix(line, "printer text:");
      PrinterTextLine(Strip(AfterFirstColon(line)))
    else if StartsWith(lowered, "fuser:") then
      FuserLine(FindPercent(line, "fuser:"), FindPercent(line, "belt:"))
    else
      OtherLine
  }

  /** `levels[channel] = value` when a value was found. */
  function SetLevel(levels: Levels, channel: Channel, value: Option<nat>): (r: Levels)
    ensures value.Some? ==> r == levels[channel := value.value]
    ensures value.None? ==> r == levels
  {
    match value
    case Some(v) => levels[channel := v]
    case None => levels
  }

  /** A new record for an id line, with the tail's levels and timestamp. */
  function OpenRecord(id: string, tail: string): (r: PrinterRecord)
    ensures r.printerId == id && r.rowTail == tail
    ensures r.description == "" && r.statusMessage == "" && r.printerText == ""
    ensures r.emptyTrays == []
    ensures r.levels == ParseTailMetrics(tail).levels
    ensures r.deviceLastUpdate == ParseTailMetrics(tail).lastUpdate
  {
    var metrics := ParseTailMetrics(tail);
    PrinterRecord(id, "", "", "", metrics.lastUpdate, tail, metrics.levels, [])
  }

  /** What one kind of line does to the current record. */
  function ApplyKind(r: PrinterRecord, k: LineKind): PrinterRecord {
    match k
    case DescriptionLine(v) => r.(description := v)
    case StatusMessageLine(v) => r.(statusMessage := v)
    case PrinterTextLine(v) => r.(printerText := v)
    case FuserLine(f, b) => r.(levels := SetLevel(SetLevel(r.levels, Fuser, f), Belt, b))
    case OtherLine => r
  }

  /** One non-id line applied to the current record. */
  function ApplyLine(r: PrinterRecord, line: string): PrinterRecord {
    ApplyKind(r, ClassifyLine(line))
  }

  /** The lines applied in order. */
  function ApplyLines(r: PrinterRecord, lines: seq<string>): PrinterRecord
    decreases |lines|
  {
    if |lines| == 0 then r else ApplyLines(ApplyLine(r, lines[0]), lines[1..])
  }

  /** Both level maps agree on whether `ch` is present and on its value. */
  predicate SameLevel(a: Levels, b: Levels, ch: Channel) {
    (ch in a <==> ch in b) && (ch in a ==> a[ch] == b[ch])
  }

  /**
   * A `Fuser:` line (any case) sets the fuser level to its leftmost
   * `fuser: NN%` value and the belt level to its leftmost `belt: NN%` value,
   * each only when present; nothing else about the record changes.
   */
  lemma FuserLineSetsLevels(r: PrinterRecord, line: string)
    requires StartsWith(Lower(line), "fuser:")
    ensures var a := ApplyLine(r, line);
            var fuser := FindPercent(line, "fuser:");
            var belt := FindPercent(line, "belt:");
            && a == r.(levels := a.levels)
            && (fuser.Some? ==> Fuser in a.levels && a.levels[Fuser] == fuser.value)
            && (fuser.None? ==> SameLevel(a.levels, r.levels, Fuser))
            && (belt.Some? ==> Belt in a.levels && a.levels[Belt] == belt.value)
            && (belt.None? ==> SameLevel(a.levels, r.levels, Belt))
            && (forall ch :: ch != Fuser && ch != Belt ==> SameLevel(a.levels, r.levels, ch))
  {
    var fuser := FindPercent(line, "fuser:");
    var belt := FindPercent(line, "belt:");
    ClassifyFuserLine(line);
    ApplyFuserLine(r, line, fuser, belt);
    SetFuserAndBelt(r.levels, fuser, belt);
  }

  lemma ApplyFuserLine(r: PrinterRecord, line: string, fuser: Option<nat>, belt: Option<nat>)
    requires ClassifyLine(line) == FuserLine(fuser, belt)
    ensures ApplyLine(r, line) == r.(levels := SetLevel(SetLevel(r.levels, Fuser, fuser), Belt, belt))
  {
  }

  lemma SetFuserAndBelt(levels: Levels, fuser: Option<nat>, belt: Option<nat>)
    ensures var l := SetLevel(SetLevel(levels, Fuser, fuser), Belt, belt);
            && (fuser.Some? ==> Fuser in l && l[Fuser] == fuser.value)
            && (fuser.None? ==> SameLevel(l, levels, Fuser))
            && (belt.Some? ==> Belt in l && l[Belt] == belt.value)
            && (belt.None? ==> SameLevel(l, levels, Belt))
            && (forall ch :: ch != Fuser && ch != Belt ==> SameLevel(l, levels, ch))
  {
  }

  /** Any other line leaves the levels alone. */
  lemma OtherLineKeepsLevels(r: PrinterRecord, line: string)
    requires !StartsWith(Lower(line), "fuser:")
    ensures ApplyLine(r, line).levels == r.levels
  {
    FuserLineHasPrefix(line);
    ApplyNonFuserLine(r, line);
  }

  lemma FuserLineHasPrefix(line: string)
    ensures ClassifyLine(line).FuserLine? ==> StartsWith(Lower(line), "fuser:")
  {
  }

  lemma ApplyNonFuserLine(r: PrinterRecord, line: string)
    requires !ClassifyLine(line).FuserLine?
    ensures ApplyLine(r, line).levels == r.levels
  {
    var k := ClassifyLine(line);
    assert ApplyLine(r, line) == ApplyKind(r, k);
  }

  /** Two prefixes that differ in their first character cannot both begin `s`. */
  lemma DistinctPrefixes(s: string, a: string, b: string)
    requires |a| > 0 && |b| > 0 && a[0] != b[0] && StartsWith(s, a)
    ensures !StartsWith(s, b)
  {
    assert s[0] == s[..|a|][0];
  }

  lemma ClassifyFuserLine(line: string)
    requires StartsWith(Lower(line), "fuser:")
    ensures ClassifyLine(line) == FuserLine(FindPercent(line, "fuser:"), FindPercent(line, "belt:"))
  {
    var lowered := Lower(line);
    DistinctPrefixes(lowered, "fuser:", "description:");
    DistinctPrefixes(lowered, "fuser:", "status message:");
    DistinctPrefixes(lowered, "fuser:", "printer text:");
  }


  /** Without a `Fuser:` line the record keeps the levels of its row tail. */
  lemma {:induction false} LevelsOnlyFromFuserLines(r: PrinterRecord, lines: seq<string>)
    requires forall i :: 0 <= i < |lines| ==> !StartsWith(Lower(lines[i]), "fuser:")
    ensures ApplyLines(r, lines).levels == r.levels
    decreases |lines|
  {
    if |lines| > 0 {
      OtherLineKeepsLevels(r, lines[0]);
      LevelsOnlyFromFuserLines(ApplyLine(r, lines[0]), lines[1..]);
    }
  }

  /** A field whose value is the latest line with its prefix. */
  datatype TextField = Description | StatusMessage | PrinterText

  function FieldOf(r: PrinterRecord, f: TextField): string {
    match f
    case Description => r.description
    case StatusMessage => r.statusMessage
    case PrinterText => r.printerText
  }

  /** The value a line assigns to the field, if it is that field's line. */
  function LineSets(line: string, f: TextField): Option<string> {
    KindSets(ClassifyLine(line), f)
  }

  function KindSets(k: LineKind, f: TextField): Option<string> {
    match (k, f)
    case (DescriptionLine(v), Description) => Some(v)
    case (StatusMessageLine(v), StatusMessage) => Some(v)
    case (PrinterTextLine(v), PrinterText) => Some(v)
    case _ => None
  }

  lemma ApplyLineField(r: PrinterRecord, line: string, f: TextField)
    ensures FieldOf(ApplyLine(r, line), f) == LineSets(line, f).GetOr(FieldOf(r, f))
    ensures ApplyLine(r, line).printerId == r.printerId
    ensures ApplyLine(r, line).rowTail == r.rowTail
  {
    ApplyKindField(r, ClassifyLine(line), f);
  }

  lemma ApplyKindField(r: PrinterRecord, k: LineKind, f: TextField)
    ensures FieldOf(ApplyKind(r, k), f) == KindSets(k, f).GetOr(FieldOf(r, f))
    ensures ApplyKind(r, k).printerId == r.printerId
    ensures ApplyKind(r, k).rowTail == r.rowTail
  {
  }

  lemma {:induction false} ApplyLinesAppend(r: PrinterRecord, a: seq<string>, b: seq<string>)
    ensures ApplyLines(r, a + b) == ApplyLines(ApplyLines(r, a), b)
    decreases |a|
  {
    if |a| == 0 {
      assert a + b == b;
    } else {
      assert (a + b)[1..] == a[1..] + b;
      ApplyLinesAppend(ApplyLine(r, a[0]), a[1..], b);
    }
  }

  /** Lines that do not set a field leave it alone. */
  lemma {:induction false} ApplyLinesKeepsField(r: PrinterRecord, lines: seq<string>, f: TextField)
    requires forall i :: 0 <= i < |lines| ==> LineSets(lines[i], f).None?
    ensures FieldOf(ApplyLines(r, lines), f) == FieldOf(r, f)
    decreases |lines|
  {
    if |lines| > 0 {
      ApplyLineField(r, lines[0], f);
      ApplyLinesKeepsField(ApplyLine(r, lines[0]), lines[1..], f);
    }
  }

  /**
   * A repeated `Description:` / `Status Message:` / `Printer Text:` line
   * overwrites: the field holds the value of the last such line, whatever
   * came before it.
   */
  lemma LastFieldLineWins(r: PrinterRecord, before: seq<string>, line: string,
                          after: seq<string>, f: TextField)
    requires LineSets(line, f).Some?
    requires forall i :: 0 <= i < |after| ==> LineSets(after[i], f).None?
    ensures FieldOf(ApplyLines(r, before + [line] + after), f) == LineSets(line, f).value
  {
    ApplyLinesAppend(r, before + [line], after);
    ApplyLinesAppend(r, before, [line]);
    var mid := ApplyLines(r, before);
    assert ApplyLines(mid, [line]) == ApplyLine(mid, line) by {
      assert [line][1..] == [];
    }
    ApplyLineField(mid, line, f);
    ApplyLinesKeepsField(ApplyLine(mid, line), after, f);
  }

  lemma {:induction false} ApplyLinesKeepsHead(r: PrinterRecord, lines: seq<string>)
    ensures ApplyLines(r, lines).printerId == r.printerId
    ensures ApplyLines(r, lines).rowTail == r.rowTail
    decreases |lines|
  {
    if |lines| > 0 {
      ApplyLineField(r, lines[0], Description);
      ApplyLinesKeepsHead(ApplyLine(r, lines[0]), lines[1..]);
    }
  }

  /** Text that counts towards tray detection: non-empty and not "none" or "n/a". */
  predicate Informative(value: string) {
    value != "" && Lower(value) != "none" && Lower(value) != "n/a"
  }

  /** The values that count, in their order, each as often as it occurs. */
  function Informatives(values: seq<string>): (r: seq<string>)
    ensures forall i :: 0 <= i < |r| ==> Informative(r[i])
    ensures forall v :: v in values && Informative(v) ==> v in r
    ensures forall v :: v in r ==> v in values
    ensures |values| == 1 ==> r == if Informative(values[0]) then values else []
  {
    if |values| == 0 then []
    else (if Informative(values[0]) then [values[0]] else []) + Informatives(values[1..])
  }

  /** Filtering a concatenation filters each part. */
  lemma {:induction false} InformativesAppend(a: seq<string>, b: seq<string>)
    ensures Informatives(a + b) == Informatives(a) + Informatives(b)
    decreases |a|
  {
    if |a| == 0 {
      assert a + b == b;
    } else {
      assert (a + b)[0] == a[0];
      assert (a + b)[1..] == a[1..] + b;
      InformativesAppend(a[1..], b);
    }
  }

  /** The text searched for tray mentions: the informative texts, space-joined. */
  function TrayText(r: PrinterRecord): string {
    Join(" ", Informatives([r.statusMessage, r.printerText, r.rowTail]))
  }

  function IfInformative(v: string): seq<string> {
    if Informative(v) then [v] else []
  }

  /**
   * The tray text joins the status message, the printer text and the row
   * tail, in that order, leaving out each one that is empty, "none" or "n/a".
   */
  lemma TrayTextParts(r: PrinterRecord)
    ensures TrayText(r) == Join(" ", IfInformative(r.statusMessage) + IfInformative(r.printerText)
                                     + IfInformative(r.rowTail))
  {
    var a, b, c := r.statusMessage, r.printerText, r.rowTail;
    assert [a, b, c] == [a] + [b] + [c];
    InformativesAppend([a] + [b], [c]);
    InformativesAppend([a], [b]);
  }

  /** The row tail before its first timestamp, stripped (the whole tail when it has none). */
  function DescriptionGuess(tail: string): string {
    match FindTimestamp(tail)
    case Some((start, _)) => Strip(tail[..start])
    case None => Strip(tail)
  }

  /** `finalize_record`: default the description, then detect the empty trays. */
  function Finalize(r: PrinterRecord, matcher: TrayMatcher): (f: PrinterRecord)
    ensures f.description != ""
    ensures r.description != "" ==> f.description == r.description
    ensures r.description == "" && DescriptionGuess(r.rowTail) != "" ==>
              f.description == DescriptionGuess(r.rowTail)
    ensures r.description == "" && DescriptionGuess(r.rowTail) == "" ==>
              f.description == "Printer " + r.printerId
    ensures f == r.(description := f.description, emptyTrays := f.emptyTrays)
    ensures StrictlySorted(f.emptyTrays)
    ensures f.emptyTrays == DetectEmptyTrays(matcher(TrayText(r)))
  {
    var description :=
      if r.description != "" then r.description
      else
        var guess := DescriptionGuess(r.rowTail);
        if guess != "" then guess else "Printer " + r.printerId;
    r.(description := description, emptyTrays := DetectEmptyTrays(matcher(TrayText(r))))
  }

  /**
   * Recognises the line that opens a record and gives its (id, tail). The page
   * parser uses `IdLine`; the segmentation below holds for any recogniser.
   */
  type Opener = string -> Option<(string, string)>

  /** Number of leading lines that do not open a record. */
  function FieldRun(lines: seq<string>, opens: Opener): (n: nat)
    ensures n <= |lines|
  {
    if |lines| == 0 || opens(lines[0]).Some? then 0 else 1 + FieldRun(lines[1..], opens)
  }

  /** The run holds no line that opens a record and stops at one, or at the end. */
  lemma {:induction false} FieldRunStopsAtIdLine(lines: seq<string>, opens: Opener)
    ensures var n := FieldRun(lines, opens);
            && (forall i :: 0 <= i < n ==> opens(lines[i]).None?)
            && (n == |lines| || opens(lines[n]).Some?)
    decreases |lines|
  {
    if |lines| > 0 && opens(lines[0]).None? {
      FieldRunStopsAtIdLine(lines[1..], opens);
      var n := FieldRun(lines[1..], opens);
      assert forall i :: 1 <= i <= n ==> lines[i] == lines[1..][i - 1];
    }
  }

  /**
   * What happens to a record once its last line has been read. The page
   * parser finalizes it; the segmentation below holds for any such step.
   */
  type Closer = PrinterRecord -> PrinterRecord

  function FinalizeWith(matcher: TrayMatcher): Closer {
    (r: PrinterRecord) => Finalize(r, matcher)
  }

  /** The step keeps the device id and the row tail. */
  ghost predicate KeepsHead(close: Closer) {
    forall r :: close(r).printerId == r.printerId && close(r).rowTail == r.rowTail
  }

  lemma FinalizeKeepsHead(matcher: TrayMatcher)
    ensures KeepsHead(FinalizeWith(matcher))
  {
  }

  /**
   * The page's records segment by segment: each id line with the lines up to
   * the next id line, applied and closed; lines before the first id line are
   * skipped.
   */
  function Segments(lines: seq<string>, opens: Opener, close: Closer): seq<PrinterRecord>
    decreases |lines|
  {
    if |lines| == 0 then []
    else
      match opens(lines[0])
      case None => Segments(lines[1..], opens, close)
      case Some((id, tail)) =>
        var rest := lines[1..];
        var n := FieldRun(rest, opens);
        [close(ApplyLines(OpenRecord(id, tail), rest[..n]))] + Segments(rest[n..], opens, close)
  }

  /** The (id, tail) of every id line, in input order. */
  function IdLines(lines: seq<string>, opens: Opener): seq<(string, string)>
    decreases |lines|
  {
    if |lines| == 0 then []
    else
      (match opens(lines[0]) case Some(h) => [h] case None => [])
        + IdLines(lines[1..], opens)
  }

  function Heads(records: seq<PrinterRecord>): (h: seq<(string, string)>)
    ensures |h| == |records|
    ensures forall i :: 0 <= i < |records| ==> h[i] == (records[i].printerId, records[i].rowTail)
  {
    if |records| == 0 then [] else [(records[0].printerId, records[0].rowTail)] + Heads(records[1..])
  }

  lemma {:induction false} IdLinesOfFieldRun(lines: seq<string>, opens: Opener)
    ensures IdLines(lines, opens) == IdLines(lines[FieldRun(lines, opens)..], opens)
    decreases |lines|
  {
    if |lines| > 0 && opens(lines[0]).None? {
      IdLinesOfFieldRun(lines[1..], opens);
      assert lines[1..][FieldRun(lines[1..], opens)..] == lines[FieldRun(lines, opens)..];
    }
  }

  lemma SegmentsAtIdLine(lines: seq<string>, opens: Opener, close: Closer)
    requires KeepsHead(close)
    requires |lines| > 0 && opens(lines[0]).Some?
    ensures var rest := lines[1..];
            var n := FieldRun(rest, opens);
            && |Segments(lines, opens, close)| > 0
            && Heads(Segments(lines, opens, close))[0] == opens(lines[0]).value
            && Segments(lines, opens, close)[1..] == Segments(rest[n..], opens, close)
            && IdLines(lines, opens) == [opens(lines[0]).value] + IdLines(rest[n..], opens)
  {
    var (id, tail) := opens(lines[0]).value;
    var rest := lines[1..];
    var n := FieldRun(rest, opens);
    ApplyLinesKeepsHead(OpenRecord(id, tail), rest[..n]);
    IdLinesOfFieldRun(rest, opens);
  }

  /**
   * One record per id line, in input order, carrying that line's id and tail:
   * nothing else opens a record and no id line is lost.
   */
  lemma {:induction false} SegmentsFollowIdLines(lines: seq<string>, opens: Opener, close: Closer)
    requires KeepsHead(close)
    ensures Heads(Segments(lines, opens, close)) == IdLines(lines, opens)
    decreases |lines|
  {
    if |lines| > 0 {
      if opens(lines[0]).None? {
        SegmentsFollowIdLines(lines[1..], opens, close);
      } else {
        var n := FieldRun(lines[1..], opens);
        SegmentsAtIdLine(lines, opens, close);
        SegmentsFollowIdLines(lines[1..][n..], opens, close);
      }
    }
  }

  /** Lines before the first id line are ignored. */
  lemma {:induction false} LeadingLinesIgnored(before: seq<string>, lines: seq<string>, opens: Opener, close: Closer)
    requires forall i :: 0 <= i < |before| ==> opens(before[i]).None?
    ensures Segments(before + lines, opens, close) == Segments(lines, opens, close)
    decreases |before|
  {
    if |before| > 0 {
      assert (before + lines)[1..] == before[1..] + lines;
      LeadingLinesIgnored(before[1..], lines, opens, close);
    } else {
      assert before + lines == lines;
    }
  }

  /** Every record's id is five ASCII digits. */
  lemma {:induction false} SegmentIdsAreNumeric(lines: seq<string>, close: Closer)
    requires KeepsHead(close)
    ensures forall r :: r in Segments(lines, IdLine, close) ==> |r.printerId| == 5 && IsDigitString(r.printerId)
  {
    SegmentsFollowIdLines(lines, IdLine, close);
    IdLinesAreNumeric(lines);
    var recs := Segments(lines, IdLine, close);
    forall r | r in recs ensures |r.printerId| == 5 && IsDigitString(r.printerId) {
      var i :| 0 <= i < |recs| && recs[i] == r;
      assert Heads(recs)[i].0 == r.printerId;
    }
  }

  lemma {:induction false} IdLinesAreNumeric(lines: seq<string>)
    ensures forall i :: 0 <= i < |IdLines(lines, IdLine)| ==>
              |IdLines(lines, IdLine)[i].0| == 5 && IsDigitString(IdLines(lines, IdLine)[i].0)
    decreases |lines|
  {
    if |lines| > 0 {
      IdLinesAreNumeric(lines[1..]);
    }
  }

  /** The defensive filter: keep records whose id is all digits. */
  function NumericIdsOnly(records: seq<PrinterRecord>): (r: seq<PrinterRecord>)
    ensures forall x :: x in r ==> IsDigitString(x.printerId)
    ensures (forall x :: x in records ==> IsDigitString(x.printerId)) ==> r == records
  {
    if |records| == 0 then []
    else
      (if IsDigitString(records[0].printerId) then [records[0]] else [])
        + NumericIdsOnly(records[1..])
  }

  /** The rest of the page's records when `current` is open and `rest` remains. */
  function Continue(current: Option<PrinterRecord>, rest: seq<string>, opens: Opener, close: Closer)
    : seq<PrinterRecord>
  {
    match current
    case None => Segments(rest, opens, close)
    case Some(c) =>
      var n := FieldRun(rest, opens);
      [close(ApplyLines(c, rest[..n]))] + Segments(rest[n..], opens, close)
  }

  /** The closed current record, if one is open. */
  function Closed(current: Option<PrinterRecord>, close: Closer): seq<PrinterRecord> {
    if current.Some? then [close(current.value)] else []
  }

  /** An id line opens a record that runs to the next id line. */
  lemma SegmentsOpenAt(rest: seq<string>, opens: Opener, close: Closer, id: string, tail: string)
    requires |rest| > 0 && opens(rest[0]) == Some((id, tail))
    ensures Segments(rest, opens, close) == Continue(Some(OpenRecord(id, tail)), rest[1..], opens, close)
  {
  }

  lemma ContinueAtIdLine(current: Option<PrinterRecord>, rest: seq<string>, opens: Opener, close: Closer,
                         id: string, tail: string)
    requires |rest| > 0 && opens(rest[0]) == Some((id, tail))
    ensures Continue(current, rest, opens, close)
              == Closed(current, close) + Continue(Some(OpenRecord(id, tail)), rest[1..], opens, close)
  {
    var next := Continue(Some(OpenRecord(id, tail)), rest[1..], opens, close);
    SegmentsOpenAt(rest, opens, close, id, tail);
    if current.Some? {
      assert FieldRun(rest, opens) == 0;
      assert rest[..0] == [] && rest[0..] == rest;
      assert Continue(current, rest, opens, close) == [close(current.value)] + Segments(rest, opens, close);
    } else {
      assert Closed(current, close) + next == next;
    }
  }

  lemma ContinueAtFieldLine(current: Option<PrinterRecord>, rest: seq<string>, opens: Opener, close: Closer)
    requires |rest| > 0 && opens(rest[0]).None?
    ensures Continue(current, rest, opens, close)
              == Continue(if current.Some? then Some(ApplyLine(current.value, rest[0])) else None,
                          rest[1..], opens, close)
  {
    if current.Some? {
      var n := FieldRun(rest, opens);
      assert rest[..n][0] == rest[0];
      assert rest[..n][1..] == rest[1..][..n - 1];
      assert rest[1..][n - 1..] == rest[n..];
    }
  }

  lemma ContinueAtEnd(current: Option<PrinterRecord>, opens: Opener, close: Closer)
    ensures Continue(current, [], opens, close) == Closed(current, close)
  {
  }

  /** An id line closes the open record and opens a new one. */
  lemma StepIdLine(records: seq<PrinterRecord>, current: Option<PrinterRecord>, rest: seq<string>,
                   opens: Opener, close: Closer, target: seq<PrinterRecord>, id: string, tail: string)
    requires |rest| > 0 && opens(rest[0]) == Some((id, tail))
    requires records + Continue(current, rest, opens, close) == target
    ensures (records + Closed(current, close)) + Continue(Some(OpenRecord(id, tail)), rest[1..], opens, close)
              == target
  {
    var closed := Closed(current, close);
    var next := Continue(Some(OpenRecord(id, tail)), rest[1..], opens, close);
    ContinueAtIdLine(current, rest, opens, close, id, tail);
    ConcatAssociative(records, closed, next);
  }

  /** Any other line refines the open record, or is skipped while none is open. */
  lemma StepFieldLine(records: seq<PrinterRecord>, current: Option<PrinterRecord>, rest: seq<string>,
                      opens: Opener, close: Closer, target: seq<PrinterRecord>)
    requires |rest| > 0 && opens(rest[0]).None?
    requires records + Continue(current, rest, opens, close) == target
    ensures records + Continue(if current.Some? then Some(ApplyLine(current.value, rest[0])) else None,
                               rest[1..], opens, close)
              == target
  {
    ContinueAtFieldLine(current, rest, opens, close);
  }

  /**
   * The line loop of `parse_monitor_page`: an id line closes the open record
   * and opens a new one, any other line refines the open record (or is
   * skipped while none is open), and the end of input closes the last one.
   */
  method ParseLines(lines: seq<string>, opens: Opener, close: Closer) returns (records: seq<PrinterRecord>)
    ensures records == Segments(lines, opens, close)
  {
    records := [];
    var current: Option<PrinterRecord> := None;
    var i := 0;
    assert lines[0..] == lines;
    while i < |lines|
      invariant 0 <= i <= |lines|
      invariant records + Continue(current, lines[i..], opens, close) == Segments(lines, opens, close)
    {
      var line := lines[i];
      var id := opens(line);
      assert lines[i..][1..] == lines[i + 1..];
      if id.Some? {
        StepIdLine(records, current, lines[i..], opens, close, Segments(lines, opens, close), id.value.0, id.value.1);
        records := records + Closed(current, close);
        current := Some(OpenRecord(id.value.0, id.value.1));
      } else {
        StepFieldLine(records, current, lines[i..], opens, close, Segments(lines, opens, close));
        if current.Some? {
          current := Some(ApplyLine(current.value, line));
        }
      }
      i := i + 1;
    }
    ContinueAtEnd(current, opens, close);
    assert lines[i..] == [];
    records := records + Closed(current, close);
  }

  /**
   * `parse_monitor_page` after `html_to_lines`: the line loop with records
   * finalized as they close, then the numeric-id filter. It yields exactly
   * the segment-wise records, one per id line.
   */
  method ParseMonitorPage(lines: seq<string>, matcher: TrayMatcher)
    returns (records: seq<PrinterRecord>)
    ensures records == Segments(lines, IdLine, FinalizeWith(matcher))
    ensures Heads(records) == IdLines(lines, IdLine)
  {
    records := ParseLines(lines, IdLine, FinalizeWith(matcher));
    FinalizeKeepsHead(matcher);
    SegmentIdsAreNumeric(lines, FinalizeWith(matcher));
    records := NumericIdsOnly(records);
    SegmentsFollowIdLines(lines, IdLine, FinalizeWith(matcher));
  }
}
