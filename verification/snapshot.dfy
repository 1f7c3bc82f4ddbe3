/**
 * The snapshot of currently empty trays (`build_current_empties`,
 * main.py:450-466): one entry per device and tray, keyed "<id>::<tray>", in
 * the order the trays were first seen; a later record for the same device
 * and tray overwrites the entry in place.
 */
module Snapshot {
  import opened Wrappers
  import opened Dict
  import opened Records
  import opened Seqs

  /**
   * An open empty tray. A freshly built snapshot has no `since` and no
   * `lastSeen`; the state store fills them in.
   */
  datatype TrayItem = TrayItem(
    key: string,
    printerId: string,
    description: string,
    tray: string,
    statusMessage: string,
    printerText: string,
    deviceLastUpdate: string,
    since: Option<string>,
    lastSeen: Option<string>)

  /** The key reads back as the device id, the separator "::" and the tray. */
  function TrayKey(printerId: string, tray: string): (k: string)
    ensures |k| == |printerId| + 2 + |tray|
    ensures k[..|printerId|] == printerId && k[|printerId|..|printerId| + 2] == "::"
    ensures k[|printerId| + 2..] == tray
  {
    printerId + "::" + tray
  }

  /** For one device, the key determines the tray. */
  lemma TrayKeyInjective(printerId: string, a: string, b: string)
    requires TrayKey(printerId, a) == TrayKey(printerId, b)
    ensures a == b
  {
    var n := |printerId| + 2;
    assert TrayKey(printerId, a)[n..] == a;
    assert TrayKey(printerId, b)[n..] == b;
  }

  /** The snapshot entry of one tray of one record. */
  function ItemOf(r: PrinterRecord, tray: string): TrayItem {
    TrayItem(TrayKey(r.printerId, tray), r.printerId, r.description, tray,
             r.statusMessage, r.printerText, r.deviceLastUpdate, None, None)
  }

  /** The keys one record contributes. */
  function RecordKeys(r: PrinterRecord, trays: seq<string>): set<string> {
    set t | t in trays :: TrayKey(r.printerId, t)
  }

  /** The keys of a record's trays, in the trays' order. */
  function TrayKeys(printerId: string, trays: seq<string>): seq<string>
    decreases |trays|
  {
    if |trays| == 0 then [] else [TrayKey(printerId, trays[0])] + TrayKeys(printerId, trays[1..])
  }

  lemma {:induction false} TrayKeysElems(r: PrinterRecord, trays: seq<string>)
    ensures Elems(TrayKeys(r.printerId, trays)) == RecordKeys(r, trays)
    decreases |trays|
  {
    if |trays| == 0 {
      assert RecordKeys(r, trays) == {};
    } else {
      TrayKeysElems(r, trays[1..]);
      RecordKeysCons(r, trays);
      var ks := TrayKeys(r.printerId, trays);
      assert ks == [TrayKey(r.printerId, trays[0])] + TrayKeys(r.printerId, trays[1..]);
      assert Elems(ks) == {TrayKey(r.printerId, trays[0])} + Elems(TrayKeys(r.printerId, trays[1..]));
    }
  }

  /** An entry as the snapshot stores it: under its own key, not yet stamped. */
  predicate Fresh(d: Dict<TrayItem>) {
    forall i :: 0 <= i < |d| ==> d[i].1.key == d[i].0 && d[i].1.since.None? && d[i].1.lastSeen.None?
  }

  /** Adds the entries of `trays` of record `r` to `d`, in order. */
  function AddTrays(d: Dict<TrayItem>, r: PrinterRecord, trays: seq<string>): (e: Dict<TrayItem>)
    requires Valid(d)
    ensures Valid(e)
    decreases |trays|
  {
    if |trays| == 0 then d
    else AddTrays(Put(d, TrayKey(r.printerId, trays[0]), ItemOf(r, trays[0])), r, trays[1..])
  }

  /** A record's keys: the first tray's and the rest's. */
  lemma RecordKeysCons(r: PrinterRecord, trays: seq<string>)
    requires |trays| > 0
    ensures RecordKeys(r, trays) == {TrayKey(r.printerId, trays[0])} + RecordKeys(r, trays[1..])
  {
    assert trays == [trays[0]] + trays[1..];
  }

  /** Adding a record's trays adds exactly their keys. */
  lemma {:induction false} AddTraysKeys(d: Dict<TrayItem>, r: PrinterRecord, trays: seq<string>)
    requires Valid(d)
    ensures Keys(AddTrays(d, r, trays)) == Keys(d) + RecordKeys(r, trays)
    decreases |trays|
  {
    if |trays| == 0 {
      assert RecordKeys(r, trays) == {};
    } else {
      RecordKeysCons(r, trays);
      AddTraysKeys(Put(d, TrayKey(r.printerId, trays[0]), ItemOf(r, trays[0])), r, trays[1..]);
    }
  }

  /**
   * Adding a record's trays keeps every existing key at its position and
   * appends new keys after them.
   */
  lemma {:induction false} AddTraysKeepsOrder(d: Dict<TrayItem>, r: PrinterRecord, trays: seq<string>)
    requires Valid(d)
    ensures KeysPrefix(d, AddTrays(d, r, trays))
    decreases |trays|
  {
    if |trays| > 0 {
      var d' := Put(d, TrayKey(r.printerId, trays[0]), ItemOf(r, trays[0]));
      AddTraysKeepsOrder(d', r, trays[1..]);
      KeysPrefixTransitive(d, d', AddTrays(d', r, trays[1..]));
    }
  }

  /**
   * The keys after adding a record's trays: the old keys in place, then the
   * record's keys that were not yet present, in the trays' order, each once.
   */
  lemma {:induction false} AddTraysKeySeq(d: Dict<TrayItem>, r: PrinterRecord, trays: seq<string>)
    requires Valid(d)
    ensures KeySeq(AddTrays(d, r, trays)) == KeySeq(d) + FirstNew(Keys(d), TrayKeys(r.printerId, trays))
    decreases |trays|
  {
    var ks := TrayKeys(r.printerId, trays);
    if |trays| == 0 {
      assert KeySeq(d) + [] == KeySeq(d);
    } else {
      var k := TrayKey(r.printerId, trays[0]);
      var d' := Put(d, k, ItemOf(r, trays[0]));
      AddTraysKeySeq(d', r, trays[1..]);
      assert ks[0] == k && ks[1..] == TrayKeys(r.printerId, trays[1..]);
      if k in Keys(d) {
        SameKeySeq(d, d');
        assert Keys(d') == Keys(d);
      } else {
        assert d'[..|d'| - 1] == d;
        assert KeySeq(d') == KeySeq(d) + [k];
        assert Keys(d') == Keys(d) + {k};
        ConcatAssociative(KeySeq(d), [k], FirstNew(Keys(d) + {k}, ks[1..]));
      }
    }
  }

  /** Keys the record does not contribute keep their entries. */
  lemma {:induction false} AddTraysKeepsOthers(d: Dict<TrayItem>, r: PrinterRecord, trays: seq<string>)
    requires Valid(d)
    ensures forall k :: k !in RecordKeys(r, trays) ==> Get(AddTrays(d, r, trays), k) == Get(d, k)
    decreases |trays|
  {
    if |trays| > 0 {
      RecordKeysCons(r, trays);
      AddTraysKeepsOthers(Put(d, TrayKey(r.printerId, trays[0]), ItemOf(r, trays[0])), r, trays[1..]);
    }
  }

  /** Each of the record's trays maps to the record's own entry for it. */
  lemma {:induction false} AddTraysMapsTrays(d: Dict<TrayItem>, r: PrinterRecord, trays: seq<string>)
    requires Valid(d)
    ensures forall t :: t in trays ==> Get(AddTrays(d, r, trays), TrayKey(r.printerId, t)) == Some(ItemOf(r, t))
    decreases |trays|
  {
    if |trays| > 0 {
      var t := trays[0];
      var d' := Put(d, TrayKey(r.printerId, t), ItemOf(r, t));
      var e := AddTrays(d', r, trays[1..]);
      assert AddTrays(d, r, trays) == e;
      AddTraysMapsTrays(d', r, trays[1..]);
      AddTraysKeepsOthers(d', r, trays[1..]);
      AddTraysHead(r, trays, d', e);
    }
  }

  /**
   * Adding a record's trays adds exactly their keys, each mapped to its own
   * entry, and leaves every other key alone.
   */
  lemma AddTraysSpec(d: Dict<TrayItem>, r: PrinterRecord, trays: seq<string>)
    requires Valid(d)
    ensures var e := AddTrays(d, r, trays);
            && Keys(e) == Keys(d) + RecordKeys(r, trays)
            && (forall t :: t in trays ==> Get(e, TrayKey(r.printerId, t)) == Some(ItemOf(r, t)))
            && (forall k :: k !in RecordKeys(r, trays) ==> Get(e, k) == Get(d, k))
  {
    AddTraysKeys(d, r, trays);
    AddTraysKeepsOthers(d, r, trays);
    AddTraysMapsTrays(d, r, trays);
  }

  /** The first tray's entry survives the later trays of the same record. */
  lemma AddTraysHead(r: PrinterRecord, trays: seq<string>, d: Dict<TrayItem>, e: Dict<TrayItem>)
    requires Valid(d) && Valid(e) && |trays| > 0
    requires Get(d, TrayKey(r.printerId, trays[0])) == Some(ItemOf(r, trays[0]))
    requires forall k :: k !in RecordKeys(r, trays[1..]) ==> Get(e, k) == Get(d, k)
    requires forall u :: u in trays[1..] ==> Get(e, TrayKey(r.printerId, u)) == Some(ItemOf(r, u))
    ensures forall u :: u in trays ==> Get(e, TrayKey(r.printerId, u)) == Some(ItemOf(r, u))
  {
    var t := trays[0];
    var k := TrayKey(r.printerId, t);
    if k in RecordKeys(r, trays[1..]) {
      var u :| u in trays[1..] && TrayKey(r.printerId, u) == k;
      TrayKeyInjective(r.printerId, u, t);
    }
    assert forall u :: u in trays ==> u == t || u in trays[1..] by {
      assert trays == [t] + trays[1..];
    }
  }

  lemma PutKeepsFresh(d: Dict<TrayItem>, k: string, v: TrayItem)
    requires Valid(d) && Fresh(d) && v.key == k && v.since.None? && v.lastSeen.None?
    ensures Fresh(Put(d, k, v))
  {
    var e := Put(d, k, v);
    forall i | 0 <= i < |e| ensures e[i].1.key == e[i].0 && e[i].1.since.None? && e[i].1.lastSeen.None? {
      if e[i].0 != k {
        assert Get(e, e[i].0) == Get(d, e[i].0);
        var j :| 0 <= j < |d| && d[j].0 == e[i].0;
      }
    }
  }

  lemma {:induction false} AddTraysKeepsFresh(d: Dict<TrayItem>, r: PrinterRecord, trays: seq<string>)
    requires Valid(d) && Fresh(d)
    ensures Fresh(AddTrays(d, r, trays))
    decreases |trays|
  {
    if |trays| > 0 {
      var t := trays[0];
      PutKeepsFresh(d, TrayKey(r.printerId, t), ItemOf(r, t));
      AddTraysKeepsFresh(Put(d, TrayKey(r.printerId, t), ItemOf(r, t)), r, trays[1..]);
    }
  }

  /** Every key contributed by some record of the list. */
  function AllKeys(records: seq<PrinterRecord>): set<string> {
    if |records| == 0 then {}
    else
      var last := records[|records| - 1];
      AllKeys(records[..|records| - 1]) + RecordKeys(last, last.emptyTrays)
  }

  /** The keys of every empty tray of every record, in page order, repeats included. */
  function PageKeys(records: seq<PrinterRecord>): seq<string> {
    if |records| == 0 then []
    else
      var last := records[|records| - 1];
      PageKeys(records[..|records| - 1]) + TrayKeys(last.printerId, last.emptyTrays)
  }

  lemma {:induction false} PageKeysElems(records: seq<PrinterRecord>)
    ensures Elems(PageKeys(records)) == AllKeys(records)
    decreases |records|
  {
    if |records| > 0 {
      var last := records[|records| - 1];
      PageKeysElems(records[..|records| - 1]);
      TrayKeysElems(last, last.emptyTrays);
      var a, b := PageKeys(records[..|records| - 1]), TrayKeys(last.printerId, last.emptyTrays);
      assert Elems(a + b) == Elems(a) + Elems(b);
    }
  }

  /** `build_current_empties`: the records' empty trays, later records overwriting earlier ones. */
  function BuildCurrentEmpties(records: seq<PrinterRecord>): (d: Dict<TrayItem>)
    ensures Valid(d)
    ensures Keys(d) == AllKeys(records)
  {
    if |records| == 0 then []
    else
      var last := records[|records| - 1];
      AddTraysSpec(BuildCurrentEmpties(records[..|records| - 1]), last, last.emptyTrays);
      AddTrays(BuildCurrentEmpties(records[..|records| - 1]), last, last.emptyTrays)
  }

  /** Every entry sits under its own key and carries no timestamps yet. */
  lemma {:induction false} SnapshotIsFresh(records: seq<PrinterRecord>)
    ensures Fresh(BuildCurrentEmpties(records))
    decreases |records|
  {
    if |records| > 0 {
      var last := records[|records| - 1];
      SnapshotIsFresh(records[..|records| - 1]);
      AddTraysKeepsFresh(BuildCurrentEmpties(records[..|records| - 1]), last, last.emptyTrays);
    }
  }

  /**
   * The last record wins: each of its empty trays maps to its own entry, and
   * every other key keeps the entry the earlier records gave it.
   */
  lemma LaterRecordWins(records: seq<PrinterRecord>, r: PrinterRecord)
    ensures forall t :: t in r.emptyTrays ==>
              Get(BuildCurrentEmpties(records + [r]), TrayKey(r.printerId, t)) == Some(ItemOf(r, t))
    ensures forall k :: k !in RecordKeys(r, r.emptyTrays) ==>
              Get(BuildCurrentEmpties(records + [r]), k) == Get(BuildCurrentEmpties(records), k)
  {
    var all := records + [r];
    assert all[..|all| - 1] == records;
    AddTraysSpec(BuildCurrentEmpties(records), r, r.emptyTrays);
  }

  /**
   * Keys stay in the order their trays were first seen: the snapshot of a
   * longer list keeps the shorter list's keys at their positions.
   */
  lemma SnapshotKeepsFirstSeenOrder(records: seq<PrinterRecord>, r: PrinterRecord)
    ensures KeysPrefix(BuildCurrentEmpties(records), BuildCurrentEmpties(records + [r]))
    ensures KeySeq(BuildCurrentEmpties(records + [r]))
            == KeySeq(BuildCurrentEmpties(records)) + FirstNew(AllKeys(records), TrayKeys(r.printerId, r.emptyTrays))
  {
    var all := records + [r];
    assert all[..|all| - 1] == records;
    AddTraysKeepsOrder(BuildCurrentEmpties(records), r, r.emptyTrays);
    AddTraysKeySeq(BuildCurrentEmpties(records), r, r.emptyTrays);
  }

  /**
   * The snapshot's keys, in order, are the page's tray keys at their first
   * occurrence: a key seen again keeps the position it was first seen at.
   */
  lemma {:induction false} SnapshotKeysFirstSeen(records: seq<PrinterRecord>)
    ensures KeySeq(BuildCurrentEmpties(records)) == FirstNew({}, PageKeys(records))
    decreases |records|
  {
    if |records| > 0 {
      var init := records[..|records| - 1];
      var last := records[|records| - 1];
      SnapshotKeysFirstSeen(init);
      AddTraysKeySeq(BuildCurrentEmpties(init), last, last.emptyTrays);
      FirstNewAppend({}, PageKeys(init), TrayKeys(last.printerId, last.emptyTrays));
      PageKeysElems(init);
      assert {} + AllKeys(init) == AllKeys(init);
    }
  }
}
