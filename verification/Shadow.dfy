/** The node shadow: one stored record, changed by whole transactions (node/node.go). Merging and comparing
    documents belongs to a library and enters as the two functions merge and diff. */
module Shadow {
  import opened Model

  // a document by top-level field; the values are JSON texts
  type Document = map<string, string>

  // None stands for a missing document
  datatype Record = Record(desire: Option<Document>, report: Option<Document>)

  // what a desire asks beyond a report; None when there is no difference, which the code returns as nil
  type Delta = Option<Document>

  // merge and diff are None when they fail
  datatype Library = Library(merge: (Document, Document) -> Option<Document>,
                             diff: (Option<Document>, Option<Document>) -> Option<Delta>)

  datatype InsertResult = Inserted | KeyExists | NotInserted

  datatype Transaction = SetDesire(desired: Document, override: bool) | SetReport(reported: Document, override: bool)

  const NODE := "node"
  const NODE_STATS := "nodestats"

  // the fields a merge would not clean up are replaced
  function Refresh(report: Document, reported: Document): Document {
    var r := if NODE in reported then report[NODE := reported[NODE]] else report;
    if NODE_STATS in reported then r[NODE_STATS := reported[NODE_STATS]] else r
  }

  // two documents hold the same under a field, or neither has it
  predicate SameField(a: Document, b: Document, f: string) {
    (f in a <==> f in b) && (f in a ==> a[f] == b[f])
  }

  function NewDesire(lib: Library, desire: Option<Document>, desired: Document, override: bool): Option<Document> {
    if desire.None? || override then Some(desired) else lib.merge(desire.value, desired)
  }

  function NewReport(lib: Library, report: Option<Document>, reported: Document, override: bool): Option<Document> {
    if report.None? || override then Some(reported)
    else
      match lib.merge(report.value, reported)
      case None => None
      case Some(merged) => Some(Refresh(merged, reported))
  }

  class Node {
    const lib: Library
    var stored: Option<Record>

    constructor (lib: Library, stored: Option<Record>)
      ensures this.lib == lib && this.stored == stored
    {
      this.lib, this.stored := lib, stored;
    }

    /** Stores the first record; an existing one is left alone. storeOk says whether the transaction goes through. */
    method Insert(m: Record, storeOk: bool) returns (r: InsertResult)
      modifies this
      ensures r == if !storeOk then NotInserted else if old(stored).Some? then KeyExists else Inserted
      ensures stored == if r == Inserted then Some(m) else old(stored)
    {
      if !storeOk {
        return NotInserted;
      }
      if stored.Some? {
        return KeyExists;
      }
      stored := Some(m);
      r := Inserted;
    }

    /** A failed transaction, even one whose comparison fails after the write, leaves the record as it was; a missing
        difference is no failure. */
    method Desire(desired: Document, override: bool, storeOk: bool) returns (delta: Option<Delta>)
      modifies this
      ensures delta.None? ==> stored == old(stored)
      ensures stored == if storeOk then Commit(lib, old(stored), SetDesire(desired, override)) else old(stored)
      ensures delta.Some? <==> storeOk && Commits(lib, old(stored), SetDesire(desired, override))
      ensures delta.Some? <==>
              && storeOk && old(stored).Some?
              && if override || old(stored).value.desire.None? then
                   lib.diff(Some(desired), old(stored).value.report).Some?
                 else
                   && lib.merge(old(stored).value.desire.value, desired).Some?
                   && lib.diff(lib.merge(old(stored).value.desire.value, desired), old(stored).value.report).Some?
      ensures delta.Some? ==> stored.Some? && delta == lib.diff(stored.value.desire, stored.value.report)
      ensures delta.Some? ==> old(stored).Some? && stored.value.report == old(stored).value.report
      ensures delta.Some? && (override || old(stored).value.desire.None?) ==> stored.value.desire == Some(desired)
      ensures delta.Some? && !override && old(stored).value.desire.Some? ==>
                stored.value.desire.Some? && stored.value.desire == lib.merge(old(stored).value.desire.value, desired)
      ensures (old(stored).Some? && !override && old(stored).value.desire.Some? &&
               lib.merge(old(stored).value.desire.value, desired).None?) ==> delta.None?
    {
      if !storeOk || stored.None? {
        return None;
      }
      var m := stored.value;
      if m.desire.None? || override {
        m := m.(desire := Some(desired));
      } else {
        var merged := lib.merge(m.desire.value, desired);
        if merged.None? {
          return None;
        }
        m := m.(desire := merged);
      }
      var before := stored;
      stored := Some(m);
      delta := lib.diff(m.desire, m.report);
      if delta.None? {
        stored := before;
      }
    }

    method Report(reported: Document, override: bool, storeOk: bool) returns (delta: Option<Delta>)
      modifies this
      ensures delta.None? ==> stored == old(stored)
      ensures stored == if storeOk then Commit(lib, old(stored), SetReport(reported, override)) else old(stored)
      ensures delta.Some? <==> storeOk && Commits(lib, old(stored), SetReport(reported, override))
      ensures delta.Some? <==>
              && storeOk && old(stored).Some?
              && if override || old(stored).value.report.None? then
                   lib.diff(old(stored).value.desire, Some(reported)).Some?
                 else
                   && lib.merge(old(stored).value.report.value, reported).Some?
                   && var merged := lib.merge(old(stored).value.report.value, reported).value;
                      lib.diff(old(stored).value.desire, Some(Refresh(merged, reported))).Some?
      ensures delta.Some? ==> stored.Some? && delta == lib.diff(stored.value.desire, stored.value.report)
      ensures delta.Some? ==>
                old(stored).Some? && stored.value.desire == old(stored).value.desire && stored.value.report.Some?
      ensures delta.Some? && (override || old(stored).value.report.None?) ==> stored.value.report == Some(reported)
      ensures delta.Some? && !override && old(stored).value.report.Some? ==>
                && lib.merge(old(stored).value.report.value, reported).Some?
                && var merged, now := lib.merge(old(stored).value.report.value, reported).value, stored.value.report.value;
                   && (forall f :: f != "node" && f != "nodestats" ==> SameField(now, merged, f))
                   && SameField(now, if "node" in reported then reported else merged, "node")
                   && SameField(now, if "nodestats" in reported then reported else merged, "nodestats")
      ensures (old(stored).Some? && !override && old(stored).value.report.Some? &&
               lib.merge(old(stored).value.report.value, reported).None?) ==> delta.None?
    {
      if !storeOk || stored.None? {
        return None;
      }
      var m := stored.value;
      if m.report.None? || override {
        m := m.(report := Some(reported));
      } else {
        var merged := lib.merge(m.report.value, reported);
        if merged.None? {
          return None;
        }
        var report := merged.value;
        if NODE in reported {
          report := report[NODE := reported[NODE]];
        }
        if NODE_STATS in reported {
          report := report[NODE_STATS := reported[NODE_STATS]];
        }
        m := m.(report := Some(report));
      }
      var before := stored;
      stored := Some(m);
      delta := lib.diff(m.desire, m.report);
      if delta.None? {
        stored := before;
      }
    }

    /** Start-up: the first start stores the given record, a later start keeps the stored desire. It fails when the
        insertion fails for another reason than an existing record, or when the report fails. */
    method Start(m: Record, insertOk: bool, reportOk: bool) returns (ok: bool)
      requires m.report.Some?
      modifies this
      ensures old(stored).Some? ==> stored.Some? && stored.value.desire == old(stored).value.desire
      ensures var base := if old(stored).None? then Some(m) else old(stored);
              var t := SetReport(m.report.value, false);
              && (ok <==> insertOk && reportOk && Commits(lib, base, t))
              && stored == if !insertOk then old(stored) else if reportOk then Commit(lib, base, t) else base
      ensures insertOk && reportOk && (forall d, r :: lib.merge(d, r).Some?) && (forall d, r :: lib.diff(d, r).Some?) ==>
                ok && stored.Some? && stored.value.report.Some?
      ensures !insertOk || !reportOk ==> !ok
    {
      var inserted := Insert(m, insertOk);
      if inserted == NotInserted {
        return false;
      }
      var delta := Report(m.report.value, false, reportOk);
      ok := delta.Some?;
    }
  }

  // the two documents a transaction would store, if its own merge succeeds
  function Attempt(lib: Library, m: Record, t: Transaction): Option<Record> {
    match t
    case SetDesire(d, override) =>
      var desire := NewDesire(lib, m.desire, d, override);
      if desire.None? then None else Some(m.(desire := desire))
    case SetReport(r, override) =>
      var report := NewReport(lib, m.report, r, override);
      if report.None? then None else Some(m.(report := report))
  }

  predicate Commits(lib: Library, stored: Option<Record>, t: Transaction) {
    stored.Some? && Attempt(lib, stored.value, t).Some? &&
    var m := Attempt(lib, stored.value, t).value; lib.diff(m.desire, m.report).Some?
  }

  function Commit(lib: Library, stored: Option<Record>, t: Transaction): Option<Record> {
    if Commits(lib, stored, t) then Attempt(lib, stored.value, t) else stored
  }

  function Run(lib: Library, stored: Option<Record>, ts: seq<Transaction>): Option<Record> {
    if ts == [] then stored else Commit(lib, Run(lib, stored, ts[..|ts| - 1]), ts[|ts| - 1])
  }

  // the transactions of one kind that took effect
  function Committed(lib: Library, stored: Option<Record>, ts: seq<Transaction>, desires: bool): seq<Transaction> {
    if ts == [] then []
    else
      var front, t := ts[..|ts| - 1], ts[|ts| - 1];
      var before := Committed(lib, stored, front, desires);
      if t.SetDesire? == desires && Commits(lib, Run(lib, stored, front), t) then before + [t] else before
  }

  // fold one kind of transactions over one document, looking at nothing else
  function DesireAlone(lib: Library, desire: Option<Document>, ts: seq<Transaction>): Option<Document> {
    if ts == [] then desire
    else
      var before, t := DesireAlone(lib, desire, ts[..|ts| - 1]), ts[|ts| - 1];
      if t.SetDesire? then NewDesire(lib, before, t.desired, t.override) else before
  }

  function ReportAlone(lib: Library, report: Option<Document>, ts: seq<Transaction>): Option<Document> {
    if ts == [] then report
    else
      var before, t := ReportAlone(lib, report, ts[..|ts| - 1]), ts[|ts| - 1];
      if t.SetReport? then NewReport(lib, before, t.reported, t.override) else before
  }

  /** Over any interleaving, each half of the record is what its own committed transactions make of it: the
      desire never depends on what was reported, nor the report on what was desired. */
  lemma {:induction false} HalvesIndependent(lib: Library, m: Record, ts: seq<Transaction>)
    ensures var end := Run(lib, Some(m), ts);
            && end.Some?
            && end.value.desire == DesireAlone(lib, m.desire, Committed(lib, Some(m), ts, true))
            && end.value.report == ReportAlone(lib, m.report, Committed(lib, Some(m), ts, false))
  {
    if ts != [] {
      var front, t := ts[..|ts| - 1], ts[|ts| - 1];
      HalvesIndependent(lib, m, front);
      AloneOn(lib, m, Committed(lib, Some(m), front, true), t);
      AloneOn(lib, m, Committed(lib, Some(m), front, false), t);
    }
  }

  lemma {:induction false} AloneOn(lib: Library, m: Record, ts: seq<Transaction>, t: Transaction)
    ensures DesireAlone(lib, m.desire, ts + [t]) ==
            if t.SetDesire? then NewDesire(lib, DesireAlone(lib, m.desire, ts), t.desired, t.override)
            else DesireAlone(lib, m.desire, ts)
    ensures ReportAlone(lib, m.report, ts + [t]) ==
            if t.SetReport? then NewReport(lib, ReportAlone(lib, m.report, ts), t.reported, t.override)
            else ReportAlone(lib, m.report, ts)
  {
    assert (ts + [t])[..|ts|] == ts;
  }

  /** After a committed report that carries node information, the stored one is exactly that. */
  lemma {:induction false} NodeInfoFresh(lib: Library, stored: Option<Record>, reported: Document, override: bool,
                                         field: string)
    requires Commits(lib, stored, SetReport(reported, override))
    requires (field == NODE || field == NODE_STATS) && field in reported
    ensures var report := Commit(lib, stored, SetReport(reported, override)).value.report;
            report.Some? && field in report.value && report.value[field] == reported[field]
  {
  }

  // a merge keeps the fields that the second document lacks
  ghost predicate KeepsFields(lib: Library) {
    forall a, b, f :: lib.merge(a, b).Some? && f in a && f !in b ==>
      f in lib.merge(a, b).value && lib.merge(a, b).value[f] == a[f]
  }

  /** With such a merge, whatever is reported and desired without overriding, a field that no report carries stays as
      it was: a round for the system applications does not lose what was reported for the others. */
  lemma {:induction false} ReportedFieldStays(lib: Library, m: Record, ts: seq<Transaction>, f: string)
    requires KeepsFields(lib) && m.report.Some? && f in m.report.value
    requires forall i :: 0 <= i < |ts| && ts[i].SetReport? ==> !ts[i].override && f !in ts[i].reported
    ensures var end := Run(lib, Some(m), ts);
            end.Some? && end.value.report.Some? && f in end.value.report.value &&
            end.value.report.value[f] == m.report.value[f]
  {
    if ts != [] {
      var front := ts[..|ts| - 1];
      assert forall i :: 0 <= i < |front| ==> front[i] == ts[i];
      ReportedFieldStays(lib, m, front, f);
    }
  }
}
