/**
 * The tail metric extractor (`parse_tail_metrics`, main.py:251-277): the
 * device-reported timestamp and the ten supply percentages carried by the
 * text that follows a device id on its first line.
 */
module Tail {
  import opened Text
  import opened Wrappers

  /** The supply channels a device reports. */
  datatype Channel =
    | TonerK | TonerC | TonerM | TonerY
    | DrumK | DrumC | DrumM | DrumY
    | Belt | Fuser

  /** The fixed order in which the last ten tail numbers are bound to channels. */
  const ChannelOrder: seq<Channel> :=
    [TonerK, TonerC, TonerM, TonerY, DrumK, DrumC, DrumM, DrumY, Belt, Fuser]

  const AllChannels: set<Channel> :=
    {TonerK, TonerC, TonerM, TonerY, DrumK, DrumC, DrumM, DrumY, Belt, Fuser}

  /** Percentages by channel; a missing key is a channel the page did not report. */
  type Levels = map<Channel, nat>

  datatype TailMetrics = TailMetrics(levels: Levels, lastUpdate: string)

  /** Length of the longest prefix of `s` made of word characters. */
  function WordRun(s: string): (n: nat)
    ensures n <= |s|
    ensures forall i :: 0 <= i < n ==> IsWordChar(s[i])
    ensures n == |s| || !IsWordChar(s[n])
  {
    if |s| > 0 && IsWordChar(s[0]) then 1 + WordRun(s[1..]) else 0
  }

  /**
   * `re.findall(r"\b(\d{1,3})\b", s)` as integers. A match can only begin
   * where a word begins and must end where that word ends, so the matches are
   * exactly the words made of one to three digits.
   */
  function NumberTokens(s: string): (nums: seq<nat>)
    ensures forall i :: 0 <= i < |nums| ==> nums[i] < 1000
    decreases |s|
  {
    if |s| == 0 then []
    else if !IsWordChar(s[0]) then NumberTokens(s[1..])
    else
      var n := WordRun(s);
      var word := s[..n];
      if n <= 3 && AllDigits(word) then
        DigitsValueBound(word);
        [DigitsValue(word)] + NumberTokens(s[n..])
      else
        NumberTokens(s[n..])
  }

  lemma {:induction false} WordRunStopsAtSeparator(a: string, rest: string)
    requires |rest| > 0 && !IsWordChar(rest[0])
    ensures WordRun(a + rest) == WordRun(a)
    ensures WordRun(a) <= |a|
  {
    if |a| > 0 && IsWordChar(a[0]) {
      assert (a + rest)[1..] == a[1..] + rest;
      WordRunStopsAtSeparator(a[1..], rest);
    }
  }

  /**
   * Numbers are found word by word: joining two texts with a non-word
   * character (a space, a slash, a percent sign) concatenates their tokens.
   */
  lemma {:induction false} NumberTokensSplit(a: string, c: char, b: string)
    requires !IsWordChar(c)
    ensures NumberTokens(a + [c] + b) == NumberTokens(a) + NumberTokens(b)
    decreases |a|
  {
    var s := a + [c] + b;
    if |a| == 0 {
      assert s[1..] == b;
    } else if !IsWordChar(a[0]) {
      assert s[1..] == a[1..] + [c] + b;
      NumberTokensSplit(a[1..], c, b);
    } else {
      WordRunStopsAtSeparator(a, [c] + b);
      assert s == a + ([c] + b);
      var n := WordRun(a);
      assert s[..n] == a[..n];
      assert s[n..] == a[n..] + [c] + b;
      NumberTokensSplit(a[n..], c, b);
    }
  }

  /** Two digits at `p`, a separator, two digits, the separator, two digits. */
  predicate TripleAt(s: string, p: nat, sep: char) {
    && p + 8 <= |s|
    && IsDigit(s[p]) && IsDigit(s[p + 1]) && s[p + 2] == sep
    && IsDigit(s[p + 3]) && IsDigit(s[p + 4]) && s[p + 5] == sep
    && IsDigit(s[p + 6]) && IsDigit(s[p + 7])
  }

  /**
   * Whether `\b\d{2}/\d{2}/\d{2}\s+\d{2}:\d{2}:\d{2}\b` matches at position
   * `p`, and where the match ends. `\s+` is greedy and whitespace is never a
   * digit, so the match is unique.
   */
  function TimestampAt(s: string, p: nat): (r: Option<nat>)
    requires p <= |s|
    ensures r.Some? ==> p + 17 <= r.value <= |s|
  {
    if p > 0 && IsWordChar(s[p - 1]) then None
    else if !TripleAt(s, p, '/') then None
    else
      var w := Span(s, p + 8, IsSpace);
      var q := p + 8 + w;
      if w == 0 || !TripleAt(s, q, ':') then None
      else if q + 8 < |s| && IsWordChar(s[q + 8]) then None
      else Some(q + 8)
  }

  /** `re.search` for the timestamp: the leftmost match as (start, end). */
  function FindTimestamp(s: string): Option<(nat, nat)> {
    Leftmost(0, |s|, (q: nat) => if q <= |s| then TimestampAt(s, q) else None)
  }

  /**
   * Levels derived from the number tokens of a tail: all ten channels, bound
   * in order to the last ten numbers, when there are at least ten and each of
   * the last ten is at most 100; no levels at all otherwise.
   */
  function TailLevels(nums: seq<nat>): (r: Levels)
    ensures r == map[] || r.Keys == AllChannels
    ensures r != map[] <==>
              |nums| >= 10 && forall i :: |nums| - 10 <= i < |nums| ==> nums[i] <= 100
    ensures r != map[] ==>
              forall i :: 0 <= i < 10 ==> r[ChannelOrder[i]] == nums[|nums| - 10 + i]
  {
    if |nums| < 10 then map[]
    else
      var last := nums[|nums| - 10..];
      if forall i :: 0 <= i < 10 ==> last[i] <= 100 then
        var m := map[TonerK := last[0], TonerC := last[1], TonerM := last[2], TonerY := last[3],
                     DrumK := last[4], DrumC := last[5], DrumM := last[6], DrumY := last[7],
                     Belt := last[8], Fuser := last[9]];
        assert TonerK in m;
        m
      else
        assert exists i :: |nums| - 10 <= i < |nums| && nums[i] > 100 by {
          var j :| 0 <= j < 10 && last[j] > 100;
          assert nums[|nums| - 10 + j] > 100;
        }
        map[]
  }

  /** `parse_tail_metrics`: the first timestamp verbatim (or "") and the tail levels. */
  function ParseTailMetrics(tail: string): (m: TailMetrics)
    ensures m.levels == TailLevels(NumberTokens(tail))
    ensures m.lastUpdate == "" <==> FindTimestamp(tail).None?
    ensures FindTimestamp(tail).Some? ==>
              var (a, b) := FindTimestamp(tail).value; m.lastUpdate == tail[a..b]
  {
    var update := match FindTimestamp(tail)
      case Some((a, b)) => tail[a..b]
      case None => "";
    TailMetrics(TailLevels(NumberTokens(tail)), update)
  }
}
