/**
 The update engine as the process runs it (dns-update-persistent/update.go): records
 are objects, an update works on deep copies of them, and only the final swap touches
 the served zone.
 */
module Primary {
  import opened Collections
  import opened Serials
  import opened Records
  import opened Journals
  import opened UpdateEngine
  import opened ZoneUpdate
  import opened CommitProtocol
  import opened HttpApply
  import opened Requests

  /** A `dns.RR` behind a pointer; its TTL or serial can be changed in place. */
  class Cell {
    var rr: RR

    constructor (rr: RR)
      ensures this.rr == rr
    {
      this.rr := rr;
    }
  }

  function Contents(cells: seq<Cell>): (r: seq<RR>)
    reads cells
    ensures |r| == |cells| && forall i :: 0 <= i < |cells| ==> r[i] == cells[i].rr
  {
    seq(|cells|, i requires 0 <= i < |cells| reads cells => cells[i].rr)
  }

  /** No two entries share an object. */
  ghost predicate Unaliased(cells: seq<Cell>) {
    forall i, j :: 0 <= i < j < |cells| ==> cells[i] != cells[j]
  }

  /** A deep copy. */
  method CopyAll(cells: seq<Cell>) returns (out: seq<Cell>)
    ensures fresh(out) && Unaliased(out) && Contents(out) == Contents(cells)
  {
    out := [];
    for i := 0 to |cells|
      invariant |out| == i && fresh(out) && Unaliased(out)
      invariant forall k :: 0 <= k < i ==> out[k].rr == cells[k].rr
    {
      var c := new Cell(cells[i].rr);
      out := out + [c];
    }
  }

  /** Copies of records handed in from outside, for the initial zone. */
  method CellsOf(rrs: seq<RR>) returns (out: seq<Cell>)
    ensures fresh(out) && Unaliased(out) && Contents(out) == rrs
  {
    out := [];
    for i := 0 to |rrs|
      invariant |out| == i && fresh(out) && Unaliased(out)
      invariant forall k :: 0 <= k < i ==> out[k].rr == rrs[k]
    {
      var c := new Cell(rrs[i]);
      out := out + [c];
    }
  }

  lemma {:induction false} WithoutAppend(rrs: seq<RR>, x: RR, match_: RR -> bool)
    ensures Without(rrs + [x], match_) == if match_(x) then Without(rrs, match_) else Without(rrs, match_) + [x]
  {
    if rrs == [] {
      assert [] + [x] == [x];
    } else {
      assert (rrs + [x])[1..] == rrs[1..] + [x];
      WithoutAppend(rrs[1..], x, match_);
    }
  }

  method DeleteCells(cells: seq<Cell>, changed: bool, match_: RR -> bool) returns (out: seq<Cell>, changed': bool)
    requires Unaliased(cells)
    ensures Unaliased(out) && forall k :: 0 <= k < |out| ==> out[k] in cells
    ensures Applied(Contents(out), changed') == DeleteWhere(Applied(Contents(cells), changed), match_)
  {
    out := [];
    ghost var from: seq<int> := [];
    for i := 0 to |cells|
      invariant Filtered(cells, out, from, i, match_)
    {
      FilterNext(cells, out, from, i, match_);
      if !match_(cells[i].rr) {
        out := out + [cells[i]];
        from := from + [i];
      }
    }
    FilterDone(cells, out, from, match_);
    changed' := changed || |out| < |cells|;
  }

  ghost predicate Filtered(cells: seq<Cell>, out: seq<Cell>, from: seq<int>, i: nat, match_: RR -> bool)
    reads cells, out
  {
    Picked(cells, out, from, i) && Contents(out) == Without(Contents(cells)[..i], match_)
  }

  lemma FilterNext(cells: seq<Cell>, out: seq<Cell>, from: seq<int>, i: nat, match_: RR -> bool)
    requires Filtered(cells, out, from, i, match_) && i < |cells|
    ensures if match_(cells[i].rr) then Filtered(cells, out, from, i + 1, match_) && |out| <= i
            else Filtered(cells, out + [cells[i]], from + [i], i + 1, match_)
  {
    WithoutNext(Contents(cells), i, match_);
    PickNext(cells, out, from, i);
    ContentsAppend(out, cells[i]);
    assert |Without(Contents(cells)[..i], match_)| <= i;
  }

  lemma FilterDone(cells: seq<Cell>, out: seq<Cell>, from: seq<int>, match_: RR -> bool)
    requires Filtered(cells, out, from, |cells|, match_) && Unaliased(cells)
    ensures Unaliased(out) && (forall k :: 0 <= k < |out| ==> out[k] in cells)
    ensures Contents(out) == Without(Contents(cells), match_)
  {
    assert Contents(cells)[..|cells|] == Contents(cells);
    PickedUnaliased(cells, out, from, |cells|);
  }

  /** `out` lists the cells at the increasing positions `from`, all below `i`. */
  ghost predicate Picked(cells: seq<Cell>, out: seq<Cell>, from: seq<int>, i: nat) {
    && |from| == |out| && i <= |cells|
    && (forall k :: 0 <= k < |out| ==> 0 <= from[k] < i && out[k] == cells[from[k]])
    && forall k, m :: 0 <= k < m < |from| ==> from[k] < from[m]
  }

  lemma PickNext(cells: seq<Cell>, out: seq<Cell>, from: seq<int>, i: nat)
    requires Picked(cells, out, from, i) && i < |cells|
    ensures Picked(cells, out, from, i + 1) && Picked(cells, out + [cells[i]], from + [i], i + 1)
  {
  }

  lemma PickedUnaliased(cells: seq<Cell>, out: seq<Cell>, from: seq<int>, i: nat)
    requires Picked(cells, out, from, i) && Unaliased(cells)
    ensures Unaliased(out) && forall k :: 0 <= k < |out| ==> out[k] in cells
  {
  }

  lemma WithoutNext(rrs: seq<RR>, i: nat, match_: RR -> bool)
    requires i < |rrs|
    ensures Without(rrs[..i + 1], match_)
         == if match_(rrs[i]) then Without(rrs[..i], match_) else Without(rrs[..i], match_) + [rrs[i]]
  {
    assert rrs[..i + 1] == rrs[..i] + [rrs[i]];
    WithoutAppend(rrs[..i], rrs[i], match_);
  }

  lemma ContentsAppend(cells: seq<Cell>, c: Cell)
    ensures Contents(cells + [c]) == Contents(cells) + [c.rr]
  {
  }

  method AddCell(cells: seq<Cell>, changed: bool, rr: RR) returns (out: seq<Cell>, changed': bool)
    requires Unaliased(cells)
    modifies cells
    ensures Unaliased(out) && forall k :: 0 <= k < |out| ==> out[k] in cells || fresh(out[k])
    ensures Applied(Contents(out), changed') == AddRecord(Applied(old(Contents(cells)), changed), rr)
  {
    ghost var before := Contents(cells);
    if rr.Type() == TYPE_SOA {
      var i := SoaIndex(Contents(cells));
      if rr.Rec? || i == |cells| || !SerialGreater(rr.serial, cells[i].rr.serial) {
        return cells, changed;
      }
      var c := new Cell(rr);
      out := cells[i := c];
      assert Contents(out) == before[i := rr];
      return out, true;
    }
    if rr.Type() == TYPE_CNAME && HasNonCname(Contents(cells), rr.owner) {
      return cells, changed;
    }
    if rr.Type() != TYPE_CNAME && HasCname(Contents(cells), rr.owner) {
      return cells, changed;
    }
    var i := IndexOfRR(Contents(cells), rr);
    if i < |cells| {
      if cells[i].rr.ttl != rr.ttl {
        cells[i].rr := SetTtl(cells[i].rr, rr.ttl);
        assert Contents(cells) == before[i := SetTtl(before[i], rr.ttl)];
        return cells, true;
      }
      return cells, changed;
    }
    var c := new Cell(rr);
    out := cells + [c];
    assert Contents(out) == before + [rr];
    return out, true;
  }

  method DeleteCell(cells: seq<Cell>, changed: bool, rr: RR, apex: bool) returns (out: seq<Cell>, changed': bool)
    requires Unaliased(cells)
    ensures Unaliased(out) && forall k :: 0 <= k < |out| ==> out[k] in cells
    ensures Applied(Contents(out), changed') == DeleteRecord(Applied(Contents(cells), changed), rr, apex)
  {
    if apex && rr.Type() == TYPE_SOA {
      return cells, changed;
    }
    if apex && rr.Type() == TYPE_NS && CountRRset(Contents(cells), rr.owner, TYPE_NS) <= 1 {
      return cells, changed;
    }
    var i := IndexOfRR(Contents(cells), rr);
    if i == |cells| {
      return cells, changed;
    }
    out := cells[..i] + cells[i + 1..];
    assert Contents(out) == Contents(cells)[..i] + Contents(cells)[i + 1..];
    return out, true;
  }

  method ApplyCell(zone: Name, cells: seq<Cell>, changed: bool, u: MsgRR) returns (out: seq<Cell>, changed': bool)
    requires Unaliased(cells)
    modifies cells
    ensures Unaliased(out) && forall k :: 0 <= k < |out| ==> out[k] in cells || fresh(out[k])
    ensures Applied(Contents(out), changed') == ApplyOne(zone, Applied(old(Contents(cells)), changed), u)
  {
    var apex := u.rr.owner == zone;
    out, changed' := cells, changed;
    if u.cls == CLASS_IN {
      out, changed' := AddCell(cells, changed, u.rr);
    } else if u.cls == CLASS_ANY {
      if u.rr.Type() == TYPE_ANY {
        out, changed' := DeleteCells(cells, changed, AllAt(u.rr.owner, apex));
      } else if !(apex && (u.rr.Type() == TYPE_SOA || u.rr.Type() == TYPE_NS)) {
        out, changed' := DeleteCells(cells, changed, TypedAt(u.rr.owner, u.rr.Type()));
      }
    } else if u.cls == CLASS_NONE {
      out, changed' := DeleteCell(cells, changed, u.rr, apex);
    }
  }

  /** Applies a section to a deep copy of `live`. It modifies no object that existed
      before the call: the copies, the in-place TTL changes included, are its own. */
  method Apply(zone: Name, live: seq<Cell>, us: seq<MsgRR>) returns (out: seq<Cell>, changed: bool)
    ensures fresh(out) && Unaliased(out)
    ensures Applied(Contents(out), changed) == ApplySection(zone, Contents(live), us)
  {
    ghost var a := ApplySection(zone, Contents(live), us);
    out := CopyAll(live);
    changed := false;
    for i := 0 to |us|
      invariant fresh(out) && Unaliased(out)
      invariant a == ApplyAll(zone, Applied(Contents(out), changed), us[i..])
    {
      assert us[i..][1..] == us[i + 1..];
      out, changed := ApplyCell(zone, out, changed, us[i]);
    }
  }

  /** The copy a commit goes on to write: the section applied, and the serial advanced
      when that changed anything. */
  method NextGeneration(zone: Name, live: seq<Cell>, us: seq<MsgRR>) returns (out: seq<Cell>, changed: bool)
    ensures fresh(out)
    ensures var a := ApplySection(zone, Contents(live), us);
            changed == a.changed && (changed ==> Contents(out) == BumpSerial(a.rrs))
  {
    out, changed := Apply(zone, live, us);
    if changed {
      Bump(out);
    }
  }

  /** Advances the serial of the SOA object in place. */
  method Bump(cells: seq<Cell>)
    requires Unaliased(cells)
    modifies cells
    ensures Contents(cells) == BumpSerial(old(Contents(cells)))
  {
    ghost var before := Contents(cells);
    var i := SoaIndex(Contents(cells));
    if i < |cells| {
      cells[i].rr := cells[i].rr.(serial := Advance(cells[i].rr.serial, 1));
      assert Contents(cells) == before[i := before[i].(serial := Advance(before[i].serial, 1))];
    }
  }

  datatype HttpOutcome = Done | BadRequest(error: HttpError) | UpdateFailed(rcode: Rcode)

  class UpdatePersist {
    const zone: Name
    const policy: Policy
    const journal: Journal?
    var rrs: seq<Cell>
    /** What the served view was built from. */
    var view: seq<RR>
    /** What the durable store holds. */
    var store: seq<RR>

    ghost predicate Valid()
      reads this, rrs
    {
      view == Contents(rrs)
    }

    function View(): Node
      reads this, rrs, journal
    {
      if journal == null then
        Node(Contents(rrs), store, false, false, JournalState(0, [], []), [])
      else
        Node(Contents(rrs), store, true, journal.hasBackend, journal.View(), journal.saved)
    }

    constructor (zone: Name, policy: Policy, journal: Journal?, records: seq<RR>)
      ensures Valid() && this.zone == zone && this.policy == policy && this.journal == journal
      ensures Contents(rrs) == records && store == records && fresh(rrs)
    {
      this.zone, this.policy, this.journal := zone, policy, journal;
      var cells := CellsOf(records);
      this.rrs, this.view, this.store := cells, records, records;
    }

    /** `commitLocked`. The verdicts are the store's, the journal backend's and the view
        builder's. Whatever happens, no record object of the zone served before the call
        is altered. */
    method CommitLocked(us: seq<MsgRR>, persistOk: bool, saveOk: bool, swapOk: bool) returns (rcode: Rcode)
      requires Valid()
      modifies this, journal
      ensures Valid()
      ensures Outcome(View(), rcode) == CommitUpdates(zone, old(View()), us, persistOk, saveOk, swapOk)
      ensures rcode == NoError ==> Contents(rrs) == Advanced(zone, old(Contents(rrs)), us)
      ensures forall c :: c in old(rrs) ==> c.rr == old(c.rr)
      ensures rcode != NoError ==> rrs == old(rrs) && view == old(view)
    {
      var updated, changed := NextGeneration(zone, rrs, us);
      if !changed {
        return NoError;
      }
      rcode := WriteLocked(updated, persistOk, saveOk, swapOk);
    }

    /** The writes of a commit, in their order. */
    method WriteLocked(updated: seq<Cell>, persistOk: bool, saveOk: bool, swapOk: bool) returns (rcode: Rcode)
      requires Valid()
      modifies this, journal
      ensures Valid()
      ensures Outcome(View(), rcode) == WriteGeneration(old(View()), Contents(updated), persistOk, saveOk, swapOk)
      ensures rcode != NoError ==> rrs == old(rrs) && view == old(view)
    {
      if !persistOk {
        return ServFail;
      }
      ghost var n := View();
      var next := Contents(updated);
      store := next;
      assert View() == n.(store := next);
      if journal != null {
        var ok := journal.Commit(Contents(rrs), next, saveOk);
        assert Contents(rrs) == n.live && Contents(updated) == next;
        if !ok {
          return ServFail;
        }
        assert View() == SaveJournal(n.(store := next), next);
      }
      if !swapOk {
        return ServFail;
      }
      rrs, view := updated, next;
      return NoError;
    }

    /** `serveUpdate` past authentication: nothing is touched before every prerequisite
        and the whole prescan have passed. */
    method ServeUpdate(r: Request, persistOk: bool, saveOk: bool, swapOk: bool) returns (rcode: Rcode)
      requires Valid() && r.Wire?
      modifies this, journal
      ensures Valid()
      ensures !PrereqsMet(zone, old(Contents(rrs)), r.prereqs) ==>
                rcode != NoError && RightPrereqCode(zone, old(Contents(rrs)), r.prereqs, rcode)
      ensures PrereqsMet(zone, old(Contents(rrs)), r.prereqs) && Prescan(zone, policy, true, r.updates) != NoError ==>
                rcode != NoError && RightPrescanCode(zone, policy, true, r.updates, rcode)
      ensures !PrereqsMet(zone, old(Contents(rrs)), r.prereqs) || Prescan(zone, policy, true, r.updates) != NoError ==>
                unchanged(this) && (journal != null ==> unchanged(journal))
      ensures PrereqsMet(zone, old(Contents(rrs)), r.prereqs) && Prescan(zone, policy, true, r.updates) == NoError ==>
                Outcome(View(), rcode) == CommitUpdates(zone, old(View()), r.updates, persistOk, saveOk, swapOk)
      ensures rcode == NoError ==> Contents(rrs) == Served(zone, policy, old(Contents(rrs)), r)
      ensures forall c :: c in old(rrs) ==> c.rr == old(c.rr)
    {
      rcode := CheckPrereqs(zone, Contents(rrs), r.prereqs);
      if rcode != NoError {
        return;
      }
      rcode := PrescanAll(zone, policy, true, r.updates);
      if rcode != NoError {
        PrescanIsRight(zone, policy, true, r.updates);
        return;
      }
      rcode := CommitLocked(r.updates, persistOk, saveOk, swapOk);
    }

    /** `Apply`, the HTTP entry point: rewrite, prescan without the type policy, commit. */
    method ApplyHttp(adds: seq<MsgRR>, deletes: seq<MsgRR>, persistOk: bool, saveOk: bool, swapOk: bool)
      returns (r: HttpOutcome)
      requires Valid()
      modifies this, journal
      ensures Valid()
      ensures r.BadRequest? <==> HttpUpdates(zone, old(Contents(rrs)), adds, deletes).Rejected?
      ensures r.BadRequest? ==> r.error == HttpUpdates(zone, old(Contents(rrs)), adds, deletes).error
      ensures r.BadRequest? ==> unchanged(this) && (journal != null ==> unchanged(journal))
      ensures !r.BadRequest? ==>
                var us := HttpUpdates(zone, old(Contents(rrs)), adds, deletes).us;
                if Prescan(zone, policy, false, us) != NoError then
                  r == UpdateFailed(Prescan(zone, policy, false, us)) && unchanged(this)
                else
                  Outcome(View(), if r.Done? then NoError else r.rcode) == CommitUpdates(zone, old(View()), us, persistOk, saveOk, swapOk)
      ensures r.Done? ==> Contents(rrs) == Served(zone, policy, old(Contents(rrs)), Http(adds, deletes))
      ensures r.Done? && Wipes(zone, deletes, TYPE_NS) && old(ApexSane(zone, Contents(rrs)) && NsKeys(zone, Contents(rrs)) != {}) ==>
                NsKeys(zone, Contents(rrs)) == AddedKeys(NsAdds(zone, adds))
    {
      ghost var before := Contents(rrs);
      var rewritten := HttpUpdatesLocked(zone, Contents(rrs), adds, deletes);
      if rewritten.Rejected? {
        return BadRequest(rewritten.error);
      }
      var us := rewritten.us;
      var rcode := PrescanAll(zone, policy, false, us);
      if rcode != NoError {
        return UpdateFailed(rcode);
      }
      if Wipes(zone, deletes, TYPE_NS) && ApexSane(zone, before) && NsKeys(zone, before) != {} {
        WipeReplacesNs(zone, policy, before, adds, deletes);
      }
      rcode := CommitLocked(us, persistOk, saveOk, swapOk);
      return if rcode == NoError then Done else UpdateFailed(rcode);
    }
  }

  method PrescanAll(zone: Name, policy: Policy, enforce: bool, us: seq<MsgRR>) returns (rcode: Rcode)
    ensures rcode == Prescan(zone, policy, enforce, us)
  {
    for i := 0 to |us|
      invariant Prescan(zone, policy, enforce, us) == Prescan(zone, policy, enforce, us[i..])
    {
      assert us[i..][1..] == us[i + 1..];
      rcode := PrescanCode(zone, policy, enforce, us[i]);
      if rcode != NoError {
        return;
      }
    }
    return NoError;
  }
}
