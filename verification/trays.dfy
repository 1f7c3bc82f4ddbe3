/**
 * The tray mention detector: `normalize_tray` (main.py:280-290) and
 * `detect_empty_trays` (main.py:293-309).
 *
 * The three "tray X is empty" regular expressions are not modelled; what they
 * capture is the input. A `TrayMatches` value lists the captured tray tokens
 * of all three patterns, in pattern order, and whether the generic phrase
 * `paper out` / `tray empty` occurs in the text.
 */
module Trays {
  import opened Text
  import opened Seqs

  datatype TrayMatches = TrayMatches(captures: seq<string>, genericPhrase: bool)

  const UnknownTray: string := "Unknown Tray"

  /** The characters `normalize_tray` keeps: `[A-Za-z0-9-]`. */
  predicate IsTokenChar(c: char) { IsLetter(c) || IsDigit(c) || c == '-' }

  /** `re.sub(r"[^A-Za-z0-9-]", "", s)`. */
  function KeepTokenChars(s: string): (r: string)
    ensures |r| <= |s|
    ensures forall i :: 0 <= i < |r| ==> IsTokenChar(r[i])
    ensures (forall i :: 0 <= i < |s| ==> IsTokenChar(s[i])) ==> r == s
  {
    if |s| == 0 then ""
    else (if IsTokenChar(s[0]) then [s[0]] else "") + KeepTokenChars(s[1..])
  }

  /** The cleaned, upper-cased token of `normalize_tray`. */
  function TrayToken(value: string): string {
    Upper(KeepTokenChars(value))
  }

  /** The label text after "Tray ": a number without leading zeros, or the token itself. */
  function LabelSuffix(token: string): string {
    if IsDigitString(token) then NatToString(DigitsValue(token)) else token
  }

  /** `normalize_tray`: a captured tray token as a canonical label. */
  function NormalizeTray(value: string): (r: string)
    ensures r == UnknownTray || StartsWith(r, "Tray ")
    ensures r == UnknownTray <==> TrayToken(value) == ""
  {
    var token := TrayToken(value);
    if token == "" then UnknownTray
    else
      var r := "Tray " + TraySuffix(token);
      assert r[0] != UnknownTray[0];
      r
  }

  /**
   * What `normalize_tray` prints after "Tray " for a non-empty token: a digit
   * token as its number; a token with the TRAY prefix by its remainder
   * (UNKNOWN when nothing remains), again as a number when it is one; any
   * other token as it is.
   */
  function TraySuffix(token: string): string {
    if IsDigitString(token) then NatToString(DigitsValue(token))
    else if StartsWith(token, "TRAY") then
      LabelSuffix(if |token| == 4 then "UNKNOWN" else token[4..])
    else token
  }

  /** Upper-cased token characters: what follows "Tray " in every specific label. */
  predicate IsLabelChar(c: char) { IsUpper(c) || IsDigit(c) || c == '-' }

  lemma UpperOfTokenChars(s: string)
    requires forall i :: 0 <= i < |s| ==> IsTokenChar(s[i])
    ensures forall i :: 0 <= i < |s| ==> IsLabelChar(Upper(s)[i])
  {
  }

  lemma UpperOfLabelChars(s: string)
    requires forall i :: 0 <= i < |s| ==> IsLabelChar(s[i])
    ensures Upper(s) == s
  {
  }

  /** Every specific label is "Tray " followed by a non-empty run of label characters. */
  lemma NormalizeTrayShape(value: string)
    requires NormalizeTray(value) != UnknownTray
    ensures var suffix := TraySuffix(TrayToken(value));
            && NormalizeTray(value) == "Tray " + suffix
            && |suffix| > 0 && forall i :: 0 <= i < |suffix| ==> IsLabelChar(suffix[i])
  {
    var token := TrayToken(value);
    UpperOfTokenChars(KeepTokenChars(value));
    if !IsDigitString(token) && StartsWith(token, "TRAY") && |token| > 4 {
      var rest := token[4..];
      assert forall i :: 0 <= i < |rest| ==> rest[i] == token[i + 4];
    }
  }

  lemma LabelSuffixIdempotent(x: string)
    ensures LabelSuffix(LabelSuffix(x)) == LabelSuffix(x)
  {
    if IsDigitString(x) {
      DigitsValueOfNatToString(DigitsValue(x));
    }
  }

  lemma TraySuffixIsLabelSuffix(token: string)
    ensures LabelSuffix(TraySuffix(token)) == TraySuffix(token)
  {
    if IsDigitString(token) {
      DigitsValueOfNatToString(DigitsValue(token));
    } else if StartsWith(token, "TRAY") {
      LabelSuffixIdempotent(if |token| == 4 then "UNKNOWN" else token[4..]);
    }
  }

  /** A label reads back as the token TRAY followed by its suffix. */
  lemma TrayTokenOfLabel(suffix: string)
    requires |suffix| > 0 && forall i :: 0 <= i < |suffix| ==> IsLabelChar(suffix[i])
    ensures TrayToken("Tray " + suffix) == "TRAY" + suffix
    ensures TraySuffix("TRAY" + suffix) == LabelSuffix(suffix)
  {
    KeepTokenCharsSkipsSpace(suffix);
    UpperOfLabelChars(suffix);
    assert Upper("Tray" + suffix) == "TRAY" + Upper(suffix);
    var t := "TRAY" + suffix;
    assert !IsDigit(t[0]);
    assert t[..4] == "TRAY";
    assert t[4..] == suffix;
  }

  /**
   * Normalising a specific label again gives the same label: "Tray 7" reads
   * back as the token TRAY7, whose remainder 7 prints as 7 again.
   */
  lemma NormalizeTrayIdempotent(value: string)
    requires NormalizeTray(value) != UnknownTray
    ensures NormalizeTray(NormalizeTray(value)) == NormalizeTray(value)
  {
    var suffix := TraySuffix(TrayToken(value));
    NormalizeTrayShape(value);
    TrayTokenOfLabel(suffix);
    TraySuffixIsLabelSuffix(TrayToken(value));
  }

  /** Leading zeros are dropped after the "tray" prefix ... */
  lemma NormalizeTrayDropsLeadingZeros()
    ensures NormalizeTray("tray07") == "Tray 7"
  {
    TrayTokenOfTray07();
    TraySuffixOfTray07();
  }

  lemma TrayTokenOfTray07()
    ensures TrayToken("tray07") == "TRAY07"
  {
    assert forall i :: 0 <= i < 6 ==> IsTokenChar("tray07"[i]);
    TrayTokenOfTokenChars("tray07");
    UpperOf("tray07", "TRAY07");
  }

  lemma TraySuffixOfTray07()
    ensures TraySuffix("TRAY07") == "7"
  {
    assert !IsDigitString("TRAY07") by { assert !IsDigit("TRAY07"[0]); }
    assert "TRAY07"[4..] == "07";
    assert DigitsValue("07") == 7;
  }

  /** ... and in a bare number. */
  lemma NormalizeNumberDropsLeadingZeros()
    ensures NormalizeTray("07") == "Tray 7"
  {
    TrayTokenOfTokenChars("07");
    UpperOf("07", "07");
    assert DigitsValue("07") == 7;
  }

  lemma UpperOf(s: string, t: string)
    requires |s| == |t| && forall i :: 0 <= i < |s| ==> ToUpperChar(s[i]) == t[i]
    ensures Upper(s) == t
  {
  }

  /** A value made of token characters only is upper-cased and kept whole. */
  lemma TrayTokenOfTokenChars(value: string)
    requires forall i :: 0 <= i < |value| ==> IsTokenChar(value[i])
    ensures TrayToken(value) == Upper(value)
  {
  }

  /** A bare TRAY has nothing after the prefix and is labelled UNKNOWN. */
  lemma NormalizeTrayBareTray()
    ensures NormalizeTray("TRAY") == "Tray UNKNOWN"
  {
    TrayTokenOfTokenChars("TRAY");
    UpperOf("TRAY", "TRAY");
    assert !IsDigitString("TRAY") by { assert !IsDigit("TRAY"[0]); }
  }

  /** The hyphen survives the filter, so the remainder of TRAY-B is "-B", not a number. */
  lemma NormalizeTrayKeepsHyphen()
    ensures NormalizeTray("TRAY-B") == "Tray -B"
  {
    TrayTokenOfTrayB();
    TraySuffixOfTrayB();
  }

  lemma TrayTokenOfTrayB()
    ensures TrayToken("TRAY-B") == "TRAY-B"
  {
    TrayTokenOfTokenChars("TRAY-B");
    UpperOf("TRAY-B", "TRAY-B");
  }

  lemma TraySuffixOfTrayB()
    ensures TraySuffix("TRAY-B") == "-B"
  {
    assert !IsDigitString("TRAY-B") by { assert !IsDigit("TRAY-B"[0]); }
    assert "TRAY-B"[4..] == "-B";
    assert !IsDigitString("-B") by { assert !IsDigit("-B"[0]); }
  }

  /** A capture is an unknown tray exactly when it holds no letter, digit or hyphen. */
  lemma NormalizeTrayNoToken(value: string)
    ensures NormalizeTray(value) == UnknownTray <==> forall i :: 0 <= i < |value| ==> !IsTokenChar(value[i])
  {
    KeepTokenCharsEmpty(value);
  }

  /** The filter keeps every token character as often as it occurs, and nothing else. */
  lemma {:induction false} KeepTokenCharsCounts(s: string)
    ensures forall c :: multiset(KeepTokenChars(s))[c] == if IsTokenChar(c) then multiset(s)[c] else 0
    decreases |s|
  {
    if |s| > 0 {
      KeepTokenCharsCounts(s[1..]);
      assert s == [s[0]] + s[1..];
      var head: string := if IsTokenChar(s[0]) then [s[0]] else "";
      assert KeepTokenChars(s) == head + KeepTokenChars(s[1..]);
      assert multiset(KeepTokenChars(s)) == multiset(head) + multiset(KeepTokenChars(s[1..]));
    }
  }

  lemma {:induction false} KeepTokenCharsEmpty(s: string)
    ensures KeepTokenChars(s) == "" <==> forall i :: 0 <= i < |s| ==> !IsTokenChar(s[i])
    decreases |s|
  {
    if |s| > 0 {
      KeepTokenCharsEmpty(s[1..]);
      assert forall i :: 1 <= i < |s| ==> s[i] == s[1..][i - 1];
    }
  }

  /** An all-digit capture is "Tray " and its number, without leading zeros. */
  lemma NormalizeTrayNumber(value: string)
    requires IsDigitString(value)
    ensures NormalizeTray(value) == "Tray " + NatToString(DigitsValue(value))
  {
    TrayTokenOfTokenChars(value);
    assert Upper(value) == value;
  }

  /**
   * "tray" in any case followed by digits is "Tray " and the number after
   * the prefix, without leading zeros.
   */
  lemma NormalizeTrayPrefixedNumber(prefix: string, digits: string)
    requires |prefix| == 4 && Upper(prefix) == "TRAY" && IsDigitString(digits)
    ensures NormalizeTray(prefix + digits) == "Tray " + NatToString(DigitsValue(digits))
  {
    var value := prefix + digits;
    assert forall i :: 0 <= i < 4 ==> IsLetter(prefix[i]) by {
      forall i | 0 <= i < 4 ensures IsLetter(prefix[i]) {
        assert IsUpper(ToUpperChar(prefix[i]));
      }
    }
    assert forall i :: 0 <= i < |value| ==> IsTokenChar(value[i]) by {
      forall i | 0 <= i < |value| ensures IsTokenChar(value[i]) {
        if i >= 4 { assert value[i] == digits[i - 4]; }
      }
    }
    TrayTokenOfTokenChars(value);
    var token := "TRAY" + digits;
    assert Upper(value) == token by {
      forall i | 0 <= i < |value| ensures Upper(value)[i] == token[i] {
        if i < 4 { assert Upper(prefix)[i] == ToUpperChar(prefix[i]); }
        else { assert value[i] == digits[i - 4]; }
      }
    }
    assert !IsDigitString(token) by { assert !IsDigit(token[0]); }
    assert token[..4] == "TRAY";
    assert token[4..] == digits;
  }

  lemma {:induction false} KeepTokenCharsAppend(a: string, b: string)
    ensures KeepTokenChars(a + b) == KeepTokenChars(a) + KeepTokenChars(b)
  {
    if |a| == 0 {
      assert a + b == b;
    } else {
      assert (a + b)[0] == a[0];
      assert (a + b)[1..] == a[1..] + b;
      KeepTokenCharsAppend(a[1..], b);
    }
  }

  lemma KeepTokenCharsOfSpace()
    ensures KeepTokenChars(" ") == ""
  {
    assert " "[1..] == "";
  }

  lemma KeepTokenCharsOfTray()
    ensures KeepTokenChars("Tray") == "Tray"
  {
    assert forall i :: 0 <= i < 4 ==> IsTokenChar("Tray"[i]);
  }

  lemma KeepTokenCharsDropsLeadingSpace(suffix: string)
    requires forall i :: 0 <= i < |suffix| ==> IsLabelChar(suffix[i])
    ensures KeepTokenChars(" " + suffix) == suffix
  {
    KeepTokenCharsAppend(" ", suffix);
    KeepTokenCharsOfSpace();
  }

  lemma TrayPrefixSplits(suffix: string)
    ensures "Tray " + suffix == "Tray" + (" " + suffix)
  {
    var t := "Tray" + (" " + suffix);
    assert |t| == 5 + |suffix|;
    forall i | 0 <= i < |t| ensures t[i] == ("Tray " + suffix)[i] {
      if i >= 5 {
        assert t[i] == suffix[i - 5];
      }
    }
  }

  lemma KeepTokenCharsSkipsSpace(suffix: string)
    requires forall i :: 0 <= i < |suffix| ==> IsLabelChar(suffix[i])
    ensures KeepTokenChars("Tray " + suffix) == "Tray" + suffix
  {
    TrayPrefixSplits(suffix);
    KeepTokenCharsDropsLeadingSpace(suffix);
    KeepTokenCharsAppend("Tray", " " + suffix);
    KeepTokenCharsOfTray();
  }

  /** Every element strictly below the next one: sorted and duplicate-free. */
  predicate StrictlySorted(s: seq<string>) {
    forall i, j :: 0 <= i < j < |s| ==> StrLt(s[i], s[j])
  }

  /** Insert `x` into a strictly sorted list unless it is already there. */
  function InsertSorted(s: seq<string>, x: string): (r: seq<string>)
    requires StrictlySorted(s)
    ensures StrictlySorted(r)
    ensures Elems(r) == Elems(s) + {x}
  {
    if |s| == 0 then [x]
    else if x == s[0] then s
    else if StrLt(x, s[0]) then
      var r := [x] + s;
      assert forall j :: 0 < j < |r| ==> StrLt(x, r[j]) by {
        forall j | 0 < j < |r| ensures StrLt(x, r[j]) {
          if j > 1 { StrLtTransitive(x, s[0], s[j - 1]); }
        }
      }
      assert Elems(r) == Elems(s) + {x} by {
        ElemsConcat([x], s);
      }
      r
    else
      StrLtTotal(x, s[0]);
      var rest := InsertSorted(s[1..], x);
      var r := [s[0]] + rest;
      assert forall j :: 0 <= j < |rest| ==> StrLt(s[0], rest[j]) by {
        forall j | 0 <= j < |rest| ensures StrLt(s[0], rest[j]) {
          assert rest[j] in Elems(rest);
          if rest[j] != x {
            assert rest[j] in s[1..];
          }
        }
      }
      assert Elems(r) == Elems(s) + {x} by {
        assert s == [s[0]] + s[1..];
        ElemsConcat([s[0]], s[1..]);
        ElemsConcat([s[0]], rest);
      }
      r
  }

  /** `sorted(set(xs))`: the distinct elements of `xs` in ascending string order. */
  function SortedSet(xs: seq<string>): (r: seq<string>)
    ensures StrictlySorted(r)
    ensures Elems(r) == Elems(xs)
  {
    if |xs| == 0 then []
    else
      var init := xs[..|xs| - 1];
      assert Elems(xs) == Elems(init) + {xs[|xs| - 1]} by {
        assert xs == init + [xs[|xs| - 1]];
        ElemsConcat(init, [xs[|xs| - 1]]);
      }
      InsertSorted(SortedSet(init), xs[|xs| - 1])
  }

  /**
   * A strictly sorted list is determined by its elements, so `SortedSet` is
   * the one and only ascending, duplicate-free listing of a set.
   */
  lemma {:induction false} StrictlySortedUnique(a: seq<string>, b: seq<string>)
    requires StrictlySorted(a) && StrictlySorted(b)
    requires Elems(a) == Elems(b)
    ensures a == b
  {
    ElemsEmpty(a);
    ElemsEmpty(b);
    if |a| == 0 || |b| == 0 {
    } else {
      // The least element of both lists comes first.
      assert a[0] in Elems(b);
      assert b[0] in Elems(a);
      var i :| 0 <= i < |b| && b[i] == a[0];
      var j :| 0 <= j < |a| && a[j] == b[0];
      if i > 0 {
        assert StrLt(b[0], a[0]);
        if j > 0 { StrLtAsymmetric(a[0], b[0]); } else { StrLtIrreflexive(a[0]); }
      }
      assert a[0] == b[0];
      var ta := a[1..];
      var tb := b[1..];
      assert Elems(ta) == Elems(tb) by {
        forall x | x in Elems(ta) ensures x in Elems(tb) {
          var k :| 0 <= k < |ta| && ta[k] == x;
          assert a[k + 1] == x && StrLt(a[0], x);
          assert x in Elems(b);
          var m :| 0 <= m < |b| && b[m] == x;
          if m == 0 { StrLtIrreflexive(x); }
          assert tb[m - 1] == x;
        }
        forall x | x in Elems(tb) ensures x in Elems(ta) {
          var k :| 0 <= k < |tb| && tb[k] == x;
          assert b[k + 1] == x && StrLt(b[0], x);
          assert x in Elems(a);
          var m :| 0 <= m < |a| && a[m] == x;
          if m == 0 { StrLtIrreflexive(x); }
          assert ta[m - 1] == x;
        }
      }
      StrictlySortedUnique(ta, tb);
      assert a == [a[0]] + ta && b == [b[0]] + tb;
    }
  }

  function NormalizeAll(captures: seq<string>): (r: seq<string>)
    ensures |r| == |captures|
    ensures forall i :: 0 <= i < |r| ==> r[i] == NormalizeTray(captures[i])
  {
    seq(|captures|, i requires 0 <= i < |captures| => NormalizeTray(captures[i]))
  }

  /**
   * `detect_empty_trays`: the sorted, duplicate-free labels of every captured
   * token; the generic phrase contributes "Unknown Tray" only when nothing was
   * captured.
   */
  lemma NormalizeAllElems(captures: seq<string>)
    ensures Elems(NormalizeAll(captures)) == set c | c in captures :: NormalizeTray(c)
  {
    var normalized := NormalizeAll(captures);
    forall y | y in Elems(normalized) ensures y in set c | c in captures :: NormalizeTray(c) {
      var i :| 0 <= i < |normalized| && normalized[i] == y;
      assert captures[i] in captures;
    }
    forall y | y in set c | c in captures :: NormalizeTray(c) ensures y in Elems(normalized) {
      var c :| c in captures && NormalizeTray(c) == y;
      var i :| 0 <= i < |captures| && captures[i] == c;
      assert normalized[i] == y;
    }
  }

  function DetectEmptyTrays(m: TrayMatches): (r: seq<string>)
    ensures StrictlySorted(r)
    ensures Elems(r) ==
              (set c | c in m.captures :: NormalizeTray(c))
              + (if |m.captures| == 0 && m.genericPhrase then {UnknownTray} else {})
  {
    var labels := SortedSet(NormalizeAll(m.captures));
    NormalizeAllElems(m.captures);
    ElemsEmpty(labels);
    ElemsEmpty(NormalizeAll(m.captures));
    if |labels| == 0 && m.genericPhrase then [UnknownTray] else labels
  }
}
