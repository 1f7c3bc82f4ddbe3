/**
 * The low-supply alert builder (`build_low_alerts`, main.py:381-447): toner
 * and fuser levels at or below a threshold, and status texts that say "low
 * toner", "low ink" or "low fuser", deduplicated across records and sorted by
 * device id and item.
 */
module Alerts {
  import opened Text
  import opened Tail
  import opened Records
  import opened Seqs

  datatype LowAlert = LowAlert(
    printerId: string,
    description: string,
    item: string,
    level: string,
    source: string)

  /** Level text of a keyword alert; a level alert's level is a percentage. */
  const Reported: string := "reported"

  /** What an alert is deduplicated on: device, item, and "level" or the keyword reason. */
  type DedupeKey = (string, string, string)

  function DedupeKeyOf(a: LowAlert): DedupeKey {
    (a.printerId, a.item, if a.level == Reported then a.source else "level")
  }

  function DedupeKeys(s: seq<LowAlert>): set<DedupeKey> {
    set a | a in s :: DedupeKeyOf(a)
  }

  // ---------------------------------------------------------------------------
  // Level alerts

  /** The display name of a toner channel (`COLOR_MAP`, main.py:43-48). */
  function ColourName(ch: Channel): string
    requires ch in {TonerK, TonerC, TonerM, TonerY}
  {
    match ch
    case TonerK => "Black"
    case TonerC => "Cyan"
    case TonerM => "Magenta"
    case TonerY => "Yellow"
  }

  function TonerItem(ch: Channel): string
    requires ch in {TonerK, TonerC, TonerM, TonerY}
  {
    ColourName(ch) + " Toner"
  }

  const FuserItem: string := "Fuser"

  /**
   * A device that reports cyan, magenta and yellow, all at zero, is treated
   * as monochrome: its colour toners never raise level alerts.
   */
  predicate MonoLike(levels: Levels) {
    && TonerC in levels && TonerM in levels && TonerY in levels
    && levels[TonerC] == 0 && levels[TonerM] == 0 && levels[TonerY] == 0
  }

  /** Whether a level alert is raised for `ch`: reported, and at or below the threshold. */
  predicate AtOrBelow(levels: Levels, ch: Channel, threshold: int) {
    ch in levels && levels[ch] <= threshold
  }

  /** At most one alert for one channel of one record. */
  function LevelAlert(r: PrinterRecord, ch: Channel, item: string, threshold: int): (s: seq<LowAlert>)
    ensures |s| <= 1
    ensures |s| == 1 <==> AtOrBelow(r.levels, ch, threshold)
    ensures |s| == 1 ==>
              && s[0].printerId == r.printerId && s[0].description == r.description
              && s[0].item == item && s[0].level != Reported
              && s[0].level == NatToString(r.levels[ch]) + "%"
              && s[0].source == "threshold <= " + IntToString(threshold) + "%"
  {
    if AtOrBelow(r.levels, ch, threshold) then
      var level := NatToString(r.levels[ch]) + "%";
      assert level[0] != Reported[0];
      [LowAlert(r.printerId, r.description, item, level,
                "threshold <= " + IntToString(threshold) + "%")]
    else []
  }

  function TonerAlert(r: PrinterRecord, ch: Channel, threshold: int): (s: seq<LowAlert>)
    requires ch in {TonerK, TonerC, TonerM, TonerY}
    ensures |s| <= 1
    ensures forall a :: a in s ==> a.printerId == r.printerId && a.description == r.description
    ensures forall a :: a in s ==> a.item == TonerItem(ch) && a.level != Reported
  {
    if ch != TonerK && MonoLike(r.levels) then [] else LevelAlert(r, ch, TonerItem(ch), threshold)
  }

  /** Black, cyan, magenta and yellow toner, then the fuser, in that order. */
  function LevelAlerts(r: PrinterRecord, tonerThreshold: int, fuserThreshold: int): (s: seq<LowAlert>)
    ensures forall a :: a in s ==> a.printerId == r.printerId && a.description == r.description
    ensures forall a :: a in s ==> a.level != Reported
  {
    TonerAlert(r, TonerK, tonerThreshold) + TonerAlert(r, TonerC, tonerThreshold)
    + TonerAlert(r, TonerM, tonerThreshold) + TonerAlert(r, TonerY, tonerThreshold)
    + LevelAlert(r, Fuser, FuserItem, fuserThreshold)
  }

  /**
   * A fuser alert is raised exactly when the fuser level is reported and at
   * or below its threshold; it shows that level as a percentage.
   */
  lemma FuserAlertIff(r: PrinterRecord, tonerThreshold: int, fuserThreshold: int)
    ensures (exists a :: a in LevelAlerts(r, tonerThreshold, fuserThreshold) && a.item == FuserItem)
              <==> AtOrBelow(r.levels, Fuser, fuserThreshold)
    ensures forall a :: a in LevelAlerts(r, tonerThreshold, fuserThreshold) && a.item == FuserItem ==>
              && Fuser in r.levels
              && a.level == NatToString(r.levels[Fuser]) + "%"
              && a.source == "threshold <= " + IntToString(fuserThreshold) + "%"
  {
    var toners := TonerAlert(r, TonerK, tonerThreshold) + TonerAlert(r, TonerC, tonerThreshold)
                   + TonerAlert(r, TonerM, tonerThreshold) + TonerAlert(r, TonerY, tonerThreshold);
    var f := LevelAlert(r, Fuser, FuserItem, fuserThreshold);
    ItemsDiffer();
    assert forall a :: a in toners ==> a.item != FuserItem;
    assert LevelAlerts(r, tonerThreshold, fuserThreshold) == toners + f;
    ConcatMembers(toners, f);
    if AtOrBelow(r.levels, Fuser, fuserThreshold) {
      assert f[0] in toners + f;
    }
  }

  // ---------------------------------------------------------------------------
  // Keyword alerts

  /**
   * `\blow\s+<word>\b` matches at `p`. The word starts with a letter, so the
   * greedy `\s+` never has to give characters back.
   */
  predicate LowKeywordAt(s: string, word: string, p: nat) {
    var q := p + 3;
    && q <= |s|
    && (p == 0 || !IsWordChar(s[p - 1]))
    && s[p..q] == "low"
    && var w := Span(s, q, IsSpace);
       && w > 0
       && q + w + |word| <= |s|
       && s[q + w..q + w + |word|] == word
       && (q + w + |word| == |s| || !IsWordChar(s[q + w + |word|]))
  }

  /** `re.search(r"\blow\s+<word>\b", s)` succeeds. */
  predicate MentionsLow(s: string, word: string) {
    exists p: nat :: p <= |s| && LowKeywordAt(s, word, p)
  }

  /** The lowered status message and printer text, joined by a space. */
  function StatusBlob(r: PrinterRecord): string {
    Lower(r.statusMessage + " " + r.printerText)
  }

  const TonerReason: string := "status message reports low toner"
  const InkReason: string := "status message reports low ink"
  const FuserReason: string := "status message reports low fuser"

  function KeywordAlert(r: PrinterRecord, word: string, item: string, reason: string): (s: seq<LowAlert>)
    ensures |s| <= 1
    ensures |s| == 1 <==> MentionsLow(StatusBlob(r), word)
    ensures |s| == 1 ==>
              && s[0].printerId == r.printerId && s[0].description == r.description
              && s[0].item == item && s[0].level == Reported && s[0].source == reason
  {
    if MentionsLow(StatusBlob(r), word) then
      [LowAlert(r.printerId, r.description, item, Reported, reason)]
    else []
  }

  function KeywordAlerts(r: PrinterRecord): (s: seq<LowAlert>)
    ensures forall a :: a in s ==> a.printerId == r.printerId && a.description == r.description
    ensures forall a :: a in s ==> a.level == Reported && a.source in {TonerReason, InkReason, FuserReason}
  {
    KeywordAlert(r, "toner", "Toner", TonerReason)
    + KeywordAlert(r, "ink", "Ink", InkReason)
    + KeywordAlert(r, "fuser", FuserItem, FuserReason)
  }

  /** Every alert one record raises, before deduplication, in the order raised. */
  function RecordAlerts(r: PrinterRecord, tonerThreshold: int, fuserThreshold: int): (s: seq<LowAlert>)
    ensures forall a :: a in s ==> a.printerId == r.printerId && a.description == r.description
  {
    LevelAlerts(r, tonerThreshold, fuserThreshold) + KeywordAlerts(r)
  }

  /** Each record's alerts, one list per record. */
  function PerRecord(records: seq<PrinterRecord>, tonerThreshold: int, fuserThreshold: int)
    : (p: seq<seq<LowAlert>>)
    ensures |p| == |records|
    ensures forall i :: 0 <= i < |records| ==> p[i] == RecordAlerts(records[i], tonerThreshold, fuserThreshold)
  {
    seq(|records|, i requires 0 <= i < |records| => RecordAlerts(records[i], tonerThreshold, fuserThreshold))
  }

  /** The alerts of all records, record by record. */
  function Candidates(records: seq<PrinterRecord>, tonerThreshold: int, fuserThreshold: int): seq<LowAlert> {
    Flatten(PerRecord(records, tonerThreshold, fuserThreshold))
  }

  // ---------------------------------------------------------------------------
  // Deduplication

  /** No two alerts share a deduplication key. */
  predicate DistinctKeys(s: seq<LowAlert>) {
    forall i, j :: 0 <= i < j < |s| ==> DedupeKeyOf(s[i]) != DedupeKeyOf(s[j])
  }

  /**
   * The `seen` set of the loop: an alert is kept when its key has not been
   * seen yet, and its key is then seen.
   */
  function Dedupe(cands: seq<LowAlert>, seen: set<DedupeKey>): (r: seq<LowAlert>)
    ensures forall a :: a in r ==> a in cands && DedupeKeyOf(a) !in seen
    ensures DistinctKeys(r)
    ensures DedupeKeys(cands) <= seen + DedupeKeys(r)
  {
    if |cands| == 0 then []
    else
      var k := DedupeKeyOf(cands[0]);
      if k in seen then
        var r := Dedupe(cands[1..], seen);
        assert cands == [cands[0]] + cands[1..];
        r
      else
        var rest := Dedupe(cands[1..], seen + {k});
        assert cands == [cands[0]] + cands[1..];
        assert DedupeKeys(cands) == {k} + DedupeKeys(cands[1..]);
        assert DedupeKeys([cands[0]] + rest) == {k} + DedupeKeys(rest);
        [cands[0]] + rest
  }

  /**
   * The kept alerts are the first occurrences of each key: the alert at
   * position `j` is kept exactly when no earlier candidate (and nothing seen
   * before) has its key.
   */
  function FirstOccurrences(cands: seq<LowAlert>, seen: set<DedupeKey>): seq<LowAlert> {
    if |cands| == 0 then []
    else
      var init := cands[..|cands| - 1];
      var last := cands[|cands| - 1];
      FirstOccurrences(init, seen)
      + (if DedupeKeyOf(last) in seen + DedupeKeys(init) then [] else [last])
  }

  lemma DedupeKeysConcat(a: seq<LowAlert>, b: seq<LowAlert>)
    ensures DedupeKeys(a + b) == DedupeKeys(a) + DedupeKeys(b)
  {
    forall k | k in DedupeKeys(a + b) ensures k in DedupeKeys(a) + DedupeKeys(b) {
      var x :| x in a + b && DedupeKeyOf(x) == k;
      assert x in a || x in b;
    }
  }

  /** Deduplicating a concatenation deduplicates the second part against the first. */
  lemma {:induction false} DedupeAppend(a: seq<LowAlert>, b: seq<LowAlert>, seen: set<DedupeKey>)
    ensures Dedupe(a + b, seen) == Dedupe(a, seen) + Dedupe(b, seen + DedupeKeys(a))
    decreases |a|
  {
    if |a| == 0 {
      assert a + b == b;
      assert Dedupe(a, seen) == [];
      assert DedupeKeys(a) == {};
      assert seen + DedupeKeys(a) == seen;
    } else {
      var k := DedupeKeyOf(a[0]);
      var head := if k in seen then [] else [a[0]];
      var seen' := if k in seen then seen else seen + {k};
      assert (a + b)[0] == a[0] && (a + b)[1..] == a[1..] + b;
      DedupeStep(a + b, seen);
      DedupeStep(a, seen);
      DedupeStepKeys(a, seen);
      DedupeAppend(a[1..], b, seen');
      ConcatAssociative(head, Dedupe(a[1..], seen'), Dedupe(b, seen' + DedupeKeys(a[1..])));
    }
  }

  /** One step of the loop: the first candidate is kept unless its key was seen. */
  lemma DedupeStep(c: seq<LowAlert>, seen: set<DedupeKey>)
    requires |c| > 0
    ensures var k := DedupeKeyOf(c[0]);
            Dedupe(c, seen)
              == (if k in seen then [] else [c[0]])
                 + Dedupe(c[1..], if k in seen then seen else seen + {k})
  {
    if DedupeKeyOf(c[0]) in seen {
      assert [] + Dedupe(c[1..], seen) == Dedupe(c[1..], seen);
    }
  }

  /** After the first candidate, the seen keys are those of the whole prefix. */
  lemma DedupeStepKeys(a: seq<LowAlert>, seen: set<DedupeKey>)
    requires |a| > 0
    ensures var k := DedupeKeyOf(a[0]);
            (if k in seen then seen else seen + {k}) + DedupeKeys(a[1..]) == seen + DedupeKeys(a)
  {
    DedupeKeysConcat([a[0]], a[1..]);
    assert [a[0]] + a[1..] == a;
    assert DedupeKeys([a[0]]) == {DedupeKeyOf(a[0])};
  }

  lemma DedupeSingle(a: LowAlert, seen: set<DedupeKey>)
    ensures Dedupe([a], seen) == if DedupeKeyOf(a) in seen then [] else [a]
  {
    assert [a][1..] == [];
  }

  /** The `seen`-set loop keeps exactly the first occurrence of each key. */
  lemma {:induction false} DedupeIsFirstOccurrences(cands: seq<LowAlert>, seen: set<DedupeKey>)
    ensures Dedupe(cands, seen) == FirstOccurrences(cands, seen)
    decreases |cands|
  {
    if |cands| > 0 {
      var init := cands[..|cands| - 1];
      var last := cands[|cands| - 1];
      assert cands == init + [last];
      DedupeAppend(init, [last], seen);
      DedupeIsFirstOccurrences(init, seen);
      DedupeSingle(last, seen + DedupeKeys(init));
    }
  }

  // ---------------------------------------------------------------------------
  // Stable sort by (device id, item)

  predicate KeyLt(a: LowAlert, b: LowAlert) {
    StrLt(a.printerId, b.printerId) || (a.printerId == b.printerId && StrLt(a.item, b.item))
  }

  function SortKey(a: LowAlert): (string, string) { (a.printerId, a.item) }

  lemma KeyLtTransitive(a: LowAlert, b: LowAlert, c: LowAlert)
    requires KeyLt(a, b) && KeyLt(b, c)
    ensures KeyLt(a, c)
  {
    if StrLt(a.printerId, b.printerId) && StrLt(b.printerId, c.printerId) {
      StrLtTransitive(a.printerId, b.printerId, c.printerId);
    } else if a.printerId == b.printerId && b.printerId == c.printerId {
      StrLtTransitive(a.item, b.item, c.item);
    }
  }

  lemma KeyLtIrreflexive(a: LowAlert, b: LowAlert)
    requires SortKey(a) == SortKey(b)
    ensures !KeyLt(a, b)
  {
    StrLtIrreflexive(a.printerId);
    StrLtIrreflexive(a.item);
  }

  /** No later alert sorts strictly before an earlier one. */
  predicate Sorted(s: seq<LowAlert>) {
    forall i, j :: 0 <= i < j < |s| ==> !KeyLt(s[j], s[i])
  }

  /** Inserts after every alert that does not sort strictly after `x`. */
  function Insert(s: seq<LowAlert>, x: LowAlert): (r: seq<LowAlert>)
    requires Sorted(s)
    ensures Sorted(r)
    ensures multiset(r) == multiset(s) + multiset{x}
  {
    if |s| == 0 then [x]
    else if KeyLt(x, s[0]) then
      assert forall j :: 0 <= j < |s| ==> !KeyLt(s[j], x) by {
        forall j | 0 <= j < |s| ensures !KeyLt(s[j], x) {
          if KeyLt(s[j], x) {
            KeyLtTransitive(s[j], x, s[0]);
            KeyLtIrreflexive(s[0], s[0]);
          }
        }
      }
      [x] + s
    else
      var rest := Insert(s[1..], x);
      assert s == [s[0]] + s[1..];
      forall i | 0 <= i < |rest| ensures !KeyLt(rest[i], s[0]) {
        assert rest[i] in multiset(rest);
        if rest[i] != x {
          assert rest[i] in multiset(s[1..]);
          var j :| 0 <= j < |s[1..]| && s[1..][j] == rest[i];
          assert s[j + 1] == rest[i];
        }
      }
      PrependSorted(s[0], rest);
      [s[0]] + rest
  }

  lemma PrependSorted(h: LowAlert, s: seq<LowAlert>)
    requires Sorted(s)
    requires forall i :: 0 <= i < |s| ==> !KeyLt(s[i], h)
    ensures Sorted([h] + s)
  {
    forall i, j | 0 <= i < j < |[h] + s| ensures !KeyLt(([h] + s)[j], ([h] + s)[i]) {
      if i > 0 {
        assert ([h] + s)[i] == s[i - 1] && ([h] + s)[j] == s[j - 1];
      }
    }
  }

  /** Python's `sorted` with key (device id, item): a stable insertion sort. */
  function SortAlerts(s: seq<LowAlert>): (r: seq<LowAlert>)
    ensures Sorted(r)
    ensures multiset(r) == multiset(s)
  {
    if |s| == 0 then []
    else
      assert s == s[..|s| - 1] + [s[|s| - 1]];
      Insert(SortAlerts(s[..|s| - 1]), s[|s| - 1])
  }

  /** The alerts that share one sort key, in their order of appearance. */
  function WithKey(s: seq<LowAlert>, k: (string, string)): seq<LowAlert> {
    if |s| == 0 then []
    else (if SortKey(s[0]) == k then [s[0]] else []) + WithKey(s[1..], k)
  }

  lemma {:induction false} WithKeyAppend(a: seq<LowAlert>, b: seq<LowAlert>, k: (string, string))
    ensures WithKey(a + b, k) == WithKey(a, k) + WithKey(b, k)
    decreases |a|
  {
    if |a| == 0 {
      assert a + b == b;
    } else {
      assert (a + b)[1..] == a[1..] + b;
      WithKeyAppend(a[1..], b, k);
    }
  }

  /** `x` lands after every alert of its own key. */
  lemma {:induction false} InsertWithKey(s: seq<LowAlert>, x: LowAlert, k: (string, string))
    requires Sorted(s)
    ensures WithKey(Insert(s, x), k) == WithKey(s, k) + (if SortKey(x) == k then [x] else [])
    decreases |s|
  {
    if |s| == 0 {
    } else if KeyLt(x, s[0]) {
      assert Insert(s, x) == [x] + s;
      WithKeyAppend([x], s, k);
      if SortKey(x) == k {
        NoKeyBelow(s, x, k);
      }
    } else {
      InsertWithKey(s[1..], x, k);
      assert Insert(s, x) == [s[0]] + Insert(s[1..], x);
    }
  }

  /** Nothing in a sorted run that starts strictly above `x` shares `x`'s key. */
  lemma NoKeyBelow(s: seq<LowAlert>, x: LowAlert, k: (string, string))
    requires Sorted(s) && |s| > 0 && KeyLt(x, s[0]) && SortKey(x) == k
    ensures WithKey(s, k) == []
  {
    forall j | 0 <= j < |s| ensures SortKey(s[j]) != k {
      if SortKey(s[j]) == k {
        KeyLtSameKey(x, s[0], s[j]);
        if j == 0 { KeyLtIrreflexive(s[0], s[0]); }
      }
    }
    WithKeyNone(s, k);
  }

  lemma KeyLtSameKey(x: LowAlert, y: LowAlert, z: LowAlert)
    requires KeyLt(x, y) && SortKey(x) == SortKey(z)
    ensures KeyLt(z, y)
  {
  }

  lemma {:induction false} WithKeyNone(s: seq<LowAlert>, k: (string, string))
    requires forall j :: 0 <= j < |s| ==> SortKey(s[j]) != k
    ensures WithKey(s, k) == []
    decreases |s|
  {
    if |s| > 0 {
      WithKeyNone(s[1..], k);
    }
  }

  /**
   * Stability: alerts with equal keys keep their relative order, so for every
   * key the sorted list and the input list agree on that key's alerts.
   */
  lemma {:induction false} SortAlertsStable(s: seq<LowAlert>, k: (string, string))
    ensures WithKey(SortAlerts(s), k) == WithKey(s, k)
    decreases |s|
  {
    if |s| > 0 {
      var init := s[..|s| - 1];
      var x := s[|s| - 1];
      assert s == init + [x];
      WithKeyAppend(init, [x], k);
      var sortedInit := SortAlerts(init);
      assert SortAlerts(s) == Insert(sortedInit, x);
      InsertWithKey(sortedInit, x, k);
      SortAlertsStable(init, k);
      assert WithKey([x], k) == (if SortKey(x) == k then [x] else []) by {
        assert [x][1..] == [];
      }
    }
  }

  // ---------------------------------------------------------------------------
  // The builder

  /** `build_low_alerts`. */
  function BuildLowAlerts(records: seq<PrinterRecord>, tonerThreshold: int, fuserThreshold: int)
    : (r: seq<LowAlert>)
    ensures Sorted(r)
    ensures DistinctKeys(r)
    ensures forall a :: a in r ==> a in Candidates(records, tonerThreshold, fuserThreshold)
    ensures DedupeKeys(Candidates(records, tonerThreshold, fuserThreshold)) == DedupeKeys(r)
  {
    var cands := Candidates(records, tonerThreshold, fuserThreshold);
    var kept := Dedupe(cands, {});
    var r := SortAlerts(kept);
    PermutationKeepsDistinctKeys(kept, r);
    PermutationKeepsElems(kept, r);
    r
  }

  /** Two alert lists that are permutations of each other hold the same alerts and keys. */
  lemma PermutationKeepsElems(a: seq<LowAlert>, b: seq<LowAlert>)
    requires multiset(a) == multiset(b)
    ensures forall x :: x in b <==> x in a
    ensures DedupeKeys(a) == DedupeKeys(b)
  {
    forall x ensures x in b <==> x in a {
      assert x in b <==> x in multiset(b);
      assert x in a <==> x in multiset(a);
    }
  }

  lemma PermutationKeepsDistinctKeys(a: seq<LowAlert>, b: seq<LowAlert>)
    requires DistinctKeys(a) && multiset(a) == multiset(b)
    ensures DistinctKeys(b)
  {
    forall i, j | 0 <= i < j < |b| ensures DedupeKeyOf(b[i]) != DedupeKeyOf(b[j]) {
      if DedupeKeyOf(b[i]) == DedupeKeyOf(b[j]) {
        DistinctKeysDistinctElems(a);
        assert b[i] in multiset(a) && b[j] in multiset(a);
        var p :| 0 <= p < |a| && a[p] == b[i];
        var q :| 0 <= q < |a| && a[q] == b[j];
        assert p == q;
        assert b[i] == b[j];
        MultisetCountTwo(b, i, j);
        MultisetOfDistinct(a, p);
        assert false;
      }
    }
  }

  lemma DistinctKeysDistinctElems(a: seq<LowAlert>)
    requires DistinctKeys(a)
    ensures forall i, j :: 0 <= i < j < |a| ==> a[i] != a[j]
  {
  }

  lemma MultisetCountTwo(b: seq<LowAlert>, i: nat, j: nat)
    requires i < j < |b| && b[i] == b[j]
    ensures multiset(b)[b[i]] >= 2
  {
    assert b == b[..i] + [b[i]] + b[i + 1..j] + [b[j]] + b[j + 1..];
  }

  lemma MultisetOfDistinct(a: seq<LowAlert>, p: nat)
    requires p < |a|
    requires forall i, j :: 0 <= i < j < |a| ==> a[i] != a[j]
    ensures multiset(a)[a[p]] == 1
  {
    assert a == a[..p] + [a[p]] + a[p + 1..];
    assert a[p] !in a[..p];
    assert forall i :: p + 1 <= i < |a| ==> a[i] != a[p];
    assert a[p] !in a[p + 1..];
  }

  // ---------------------------------------------------------------------------
  // Properties

  /**
   * A toner alert is raised for a channel exactly when its level is at or
   * below the threshold, unless the device is monochrome and the channel is a
   * colour.
   */
  lemma TonerAlertIff(r: PrinterRecord, ch: Channel, threshold: int)
    requires ch in {TonerK, TonerC, TonerM, TonerY}
    ensures |TonerAlert(r, ch, threshold)| == 1 <==>
              AtOrBelow(r.levels, ch, threshold) && !(ch != TonerK && MonoLike(r.levels))
    ensures |TonerAlert(r, ch, threshold)| == 1 ==>
              var a := TonerAlert(r, ch, threshold)[0];
              a.item == TonerItem(ch) && a.level == NatToString(r.levels[ch]) + "%"
  {
  }

  /** A monochrome device raises level alerts for black toner and the fuser only. */
  lemma MonoLikeOnlyBlackAndFuser(r: PrinterRecord, tonerThreshold: int, fuserThreshold: int)
    requires MonoLike(r.levels)
    ensures forall a :: a in LevelAlerts(r, tonerThreshold, fuserThreshold) ==>
              a.item == TonerItem(TonerK) || a.item == FuserItem
  {
  }

  /** No two alerts of the list are for the same item. */
  predicate DistinctItems(s: seq<LowAlert>) {
    forall i, j :: 0 <= i < j < |s| ==> s[i].item != s[j].item
  }

  lemma AppendNewItem(acc: seq<LowAlert>, part: seq<LowAlert>, item: string)
    requires DistinctItems(acc) && |part| <= 1
    requires forall a :: a in part ==> a.item == item
    requires forall a :: a in acc ==> a.item != item
    ensures DistinctItems(acc + part)
  {
    forall i, j | 0 <= i < j < |acc + part| ensures (acc + part)[i].item != (acc + part)[j].item {
      if j >= |acc| {
        assert (acc + part)[j] in part;
        assert (acc + part)[i] in acc;
      }
    }
  }

  /** A record's level alerts are for pairwise different items. */
  lemma LevelAlertsDistinctItems(r: PrinterRecord, tonerThreshold: int, fuserThreshold: int)
    ensures DistinctItems(LevelAlerts(r, tonerThreshold, fuserThreshold))
  {
    var k := TonerAlert(r, TonerK, tonerThreshold);
    var c := TonerAlert(r, TonerC, tonerThreshold);
    var m := TonerAlert(r, TonerM, tonerThreshold);
    var y := TonerAlert(r, TonerY, tonerThreshold);
    var f := LevelAlert(r, Fuser, FuserItem, fuserThreshold);
    ItemsDiffer();
    AppendNewItem([], k, TonerItem(TonerK));
    AppendNewItem(k, c, TonerItem(TonerC));
    AppendNewItem(k + c, m, TonerItem(TonerM));
    AppendNewItem(k + c + m, y, TonerItem(TonerY));
    AppendNewItem(k + c + m + y, f, FuserItem);
  }

  /** A record's keyword alerts are for pairwise different items. */
  lemma KeywordAlertsDistinctItems(r: PrinterRecord)
    ensures DistinctItems(KeywordAlerts(r))
  {
    var t := KeywordAlert(r, "toner", "Toner", TonerReason);
    var i := KeywordAlert(r, "ink", "Ink", InkReason);
    var f := KeywordAlert(r, "fuser", FuserItem, FuserReason);
    ItemsDiffer();
    AppendNewItem([], t, "Toner");
    AppendNewItem(t, i, "Ink");
    AppendNewItem(t + i, f, FuserItem);
  }

  /** The alerts of one record never share a key, so deduplication only acts across records. */
  lemma RecordAlertsDistinct(r: PrinterRecord, tonerThreshold: int, fuserThreshold: int)
    ensures DistinctKeys(RecordAlerts(r, tonerThreshold, fuserThreshold))
  {
    var l := LevelAlerts(r, tonerThreshold, fuserThreshold);
    var k := KeywordAlerts(r);
    LevelAlertsDistinctItems(r, tonerThreshold, fuserThreshold);
    KeywordAlertsDistinctItems(r);
    var s := l + k;
    forall i, j | 0 <= i < j < |s| ensures DedupeKeyOf(s[i]) != DedupeKeyOf(s[j]) {
      if j < |l| {
        assert s[i] == l[i] && s[j] == l[j];
      } else if i >= |l| {
        assert s[i] == k[i - |l|] && s[j] == k[j - |l|];
      } else {
        assert s[i] in l && s[j] in k;
        assert s[j].source != "level";
      }
    }
  }

  lemma ItemsDiffer()
    ensures TonerItem(TonerK)[0] == 'B' && TonerItem(TonerC)[0] == 'C'
    ensures TonerItem(TonerM)[0] == 'M' && TonerItem(TonerY)[0] == 'Y'
    ensures FuserItem[0] == 'F' && "Toner"[0] == 'T' && "Ink"[0] == 'I'
  {
  }

  /** Every alert a record raises is among the candidates of a list holding it. */
  lemma RecordAlertsAreCandidates(records: seq<PrinterRecord>, i: nat,
                                  tonerThreshold: int, fuserThreshold: int)
    requires i < |records|
    ensures forall a :: a in RecordAlerts(records[i], tonerThreshold, fuserThreshold) ==>
              a in Candidates(records, tonerThreshold, fuserThreshold)
  {
    FlattenHoldsParts(PerRecord(records, tonerThreshold, fuserThreshold), i);
  }

  /** Every candidate comes from a record with its device id and description. */
  lemma CandidateOrigin(records: seq<PrinterRecord>, a: LowAlert, tonerThreshold: int, fuserThreshold: int)
    requires a in Candidates(records, tonerThreshold, fuserThreshold)
    ensures exists i :: 0 <= i < |records| && a in RecordAlerts(records[i], tonerThreshold, fuserThreshold)
  {
    FlattenOrigin(PerRecord(records, tonerThreshold, fuserThreshold), a);
  }

  /**
   * Every reported alert names a record of the page: its device id and
   * description are that record's.
   */
  lemma AlertsComeFromRecords(records: seq<PrinterRecord>, tonerThreshold: int, fuserThreshold: int)
    ensures forall a :: a in BuildLowAlerts(records, tonerThreshold, fuserThreshold) ==>
              exists i :: 0 <= i < |records|
                && records[i].printerId == a.printerId && records[i].description == a.description
  {
    forall a | a in BuildLowAlerts(records, tonerThreshold, fuserThreshold)
      ensures exists i :: 0 <= i < |records|
                && records[i].printerId == a.printerId && records[i].description == a.description
    {
      CandidateOrigin(records, a, tonerThreshold, fuserThreshold);
    }
  }

  /**
   * A fuser at or below its threshold and a status text that says "low fuser"
   * raise two separate alerts for the device: they differ in their
   * deduplication key.
   */
  lemma FuserLevelAndKeywordCoexist(records: seq<PrinterRecord>, i: nat,
                                    tonerThreshold: int, fuserThreshold: int)
    requires i < |records|
    requires AtOrBelow(records[i].levels, Fuser, fuserThreshold)
    requires MentionsLow(StatusBlob(records[i]), "fuser")
    ensures (records[i].printerId, FuserItem, "level")
              in DedupeKeys(BuildLowAlerts(records, tonerThreshold, fuserThreshold))
    ensures (records[i].printerId, FuserItem, FuserReason)
              in DedupeKeys(BuildLowAlerts(records, tonerThreshold, fuserThreshold))
  {
    var r := records[i];
    RecordAlertsAreCandidates(records, i, tonerThreshold, fuserThreshold);
    var level := LevelAlert(r, Fuser, FuserItem, fuserThreshold);
    var keyword := KeywordAlert(r, "fuser", FuserItem, FuserReason);
    assert level[0] in RecordAlerts(r, tonerThreshold, fuserThreshold);
    assert keyword[0] in RecordAlerts(r, tonerThreshold, fuserThreshold);
    var cands := Candidates(records, tonerThreshold, fuserThreshold);
    assert DedupeKeyOf(level[0]) in DedupeKeys(cands);
    assert DedupeKeyOf(keyword[0]) in DedupeKeys(cands);
  }

  /** "Low Toner" in a status message raises a toner keyword alert. */
  lemma LowTonerMentioned()
    ensures MentionsLow(Lower("Low Toner"), "toner")
  {
    var s := Lower("Low Toner");
    assert s == "low toner";
    assert Span(s, 3, IsSpace) == 1;
    assert LowKeywordAt(s, "toner", 0);
  }
}
