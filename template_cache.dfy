/** `idToTemplate`: a memoised lookup from a selector to the inner markup of the
    element it matches. The memo table lives as long as the page and is shared
    by every mount; it is never cleared, so a later DOM change is not seen for a
    selector that was already looked up. */
module TemplateCache {
  import opened Dom

  /** The memo table: selector to the value the first lookup produced. */
  type Entries = map<string, Option<string>>

  /** The uncached body of the memoised function, `el && el.innerHTML`: the
      inner markup of the matched element, or `null` when nothing matches. */
  function IdToTemplate(doc: Document, id: string): (r: Option<string>)
    ensures r.Some? <==> id in doc.selectors
    ensures r.Some? ==> r.value == doc.selectors[id].innerHTML
  {
    match Query(doc, id)
    case None => None
    case Some(el) => Some(el.innerHTML)
  }

  /** The value a lookup returns, together with the memo table after it. */
  datatype Step = Step(value: Option<string>, entries: Entries)

  /** One call of the memoised function against the DOM as it is now. */
  function LookupStep(entries: Entries, doc: Document, id: string): (s: Step)
    ensures id in s.entries && s.entries[id] == s.value
    ensures s.entries.Keys == entries.Keys + {id}
    ensures forall k :: k in entries ==> s.entries[k] == entries[k]
    ensures id in entries ==> s.value == entries[id]
    ensures id !in entries ==> s.value == IdToTemplate(doc, id)
  {
    if id in entries then Step(entries[id], entries)
    else
      var v := IdToTemplate(doc, id);
      Step(v, entries[id := v])
  }

  /** Every stored value is what the uncached lookup gives against `doc`. */
  ghost predicate Consistent(entries: Entries, doc: Document)
  {
    forall k :: k in entries ==> entries[k] == IdToTemplate(doc, k)
  }

  /** Against a DOM that has not changed since the entries were stored, the
      memoised lookup agrees with the uncached one and keeps the table
      consistent. */
  lemma LookupMatchesDom(entries: Entries, doc: Document, id: string)
    requires Consistent(entries, doc)
    ensures LookupStep(entries, doc, id).value == IdToTemplate(doc, id)
    ensures Consistent(LookupStep(entries, doc, id).entries, doc)
  {
  }

  /** A second lookup of the same selector returns the first one's value and
      leaves the table as it was, whatever the DOM has become in between. */
  lemma RepeatLookup(entries: Entries, first: Document, later: Document, id: string)
    ensures var s := LookupStep(entries, first, id);
            LookupStep(s.entries, later, id) == s
  {
  }

  /** One request to the memoised function: the selector and the DOM at the
      time of the call. */
  datatype Request = Request(doc: Document, id: string)

  /** The results of a run of requests in order, and the final table. */
  datatype Trace = Trace(values: seq<Option<string>>, entries: Entries)

  function Replay(entries: Entries, reqs: seq<Request>): (t: Trace)
    ensures |t.values| == |reqs|
    decreases |reqs|
  {
    if reqs == [] then Trace([], entries)
    else
      var s := LookupStep(entries, reqs[0].doc, reqs[0].id);
      var rest := Replay(s.entries, reqs[1..]);
      Trace([s.value] + rest.values, rest.entries)
  }

  /** A selector already in the table is answered from it at any later point of
      a run. */
  lemma {:induction false} ReplayHit(entries: Entries, reqs: seq<Request>, j: nat)
    requires j < |reqs| && reqs[j].id in entries
    ensures Replay(entries, reqs).values[j] == entries[reqs[j].id]
    decreases |reqs|
  {
    var s := LookupStep(entries, reqs[0].doc, reqs[0].id);
    if j > 0 {
      ReplayHit(s.entries, reqs[1..], j - 1);
    }
  }

  /** Across a whole run, two requests for the same selector return the same
      value, even when the DOM changed between them. */
  lemma {:induction false} ReplayRepeats(entries: Entries, reqs: seq<Request>, i: nat, j: nat)
    requires i < j < |reqs| && reqs[i].id == reqs[j].id
    ensures Replay(entries, reqs).values[i] == Replay(entries, reqs).values[j]
    decreases |reqs|
  {
    var s := LookupStep(entries, reqs[0].doc, reqs[0].id);
    if i == 0 {
      ReplayHit(s.entries, reqs[1..], j - 1);
    } else {
      ReplayRepeats(s.entries, reqs[1..], i - 1, j - 1);
    }
  }

  /** The value a selector gets in a run is decided by its first lookup: the
      stored one if the table had it, else the DOM as it was at that first
      request. */
  lemma {:induction false} ReplayFirstLookupDecides(entries: Entries, reqs: seq<Request>, i: nat, j: nat)
    requires i <= j < |reqs| && reqs[i].id == reqs[j].id
    requires forall k :: 0 <= k < i ==> reqs[k].id != reqs[i].id
    ensures Replay(entries, reqs).values[j] ==
            if reqs[i].id in entries then entries[reqs[i].id] else IdToTemplate(reqs[i].doc, reqs[i].id)
    decreases |reqs|
  {
    var s := LookupStep(entries, reqs[0].doc, reqs[0].id);
    if i == 0 {
      if j > 0 {
        ReplayHit(s.entries, reqs[1..], j - 1);
      }
    } else {
      assert reqs[0].id != reqs[i].id;
      forall k | 0 <= k < i - 1
        ensures reqs[1..][k].id != reqs[1..][i - 1].id
      {
        assert reqs[k + 1].id != reqs[i].id;
      }
      ReplayFirstLookupDecides(s.entries, reqs[1..], i - 1, j - 1);
    }
  }

  /** The table only grows: everything stored stays stored with the same value,
      and every requested selector ends up stored. */
  lemma {:induction false} ReplayGrows(entries: Entries, reqs: seq<Request>)
    ensures forall k :: k in entries ==> k in Replay(entries, reqs).entries && Replay(entries, reqs).entries[k] == entries[k]
    ensures forall r :: r in reqs ==> r.id in Replay(entries, reqs).entries
    decreases |reqs|
  {
    if reqs != [] {
      var s := LookupStep(entries, reqs[0].doc, reqs[0].id);
      ReplayGrows(s.entries, reqs[1..]);
      forall r | r in reqs
        ensures r.id in Replay(entries, reqs).entries
      {
        if r != reqs[0] {
          assert r in reqs[1..];
        }
      }
    }
  }

  /** The process-wide memo table behind `idToTemplate`. */
  class IdCache {
    var entries: Entries

    /** The table starts empty when the module is loaded. */
    constructor ()
      ensures entries == map[]
    {
      entries := map[];
    }

    /** `idToTemplate(id)`: answered from the table if the selector was seen
        before, otherwise looked up in `doc` and stored. */
    method Lookup(doc: Document, id: string) returns (r: Option<string>)
      modifies this
      ensures Step(r, entries) == LookupStep(old(entries), doc, id)
    {
      if id in entries {
        r := entries[id];
      } else {
        r := IdToTemplate(doc, id);
        entries := entries[id := r];
      }
    }
  }
}
