/** The stored NIP-09 and NIP-62 requests, which a migration applies last: they
    remove their author's events, moderation included, and a request to vanish
    is complete only then. */
module Requests {
  import opened Text
  import opened Events
  import opened EventLists
  import opened GroupActions
  import Deletion
  import StoreConvergence
  import StoreLaws

  /** Code the step calls into: whether a vanish is enabled and meant for this
      relay, and NIP-26 delegation. */
  datatype Policy = Policy(honours: Event -> bool, delegatedBy: (Event, string) -> bool)

  predicate IsRequest(p: Policy, r: Event) {
    r.kind == DELETION_KIND || (r.kind == VANISH_KIND && p.honours(r))
  }

  /** What a request removes: a kind:5 its author's events it names by full id,
      and the versions it reaches by address; a vanish its author's history up to
      its own time. */
  predicate Withdraws(p: Policy, r: Event, x: Event) {
    if r.kind == DELETION_KIND then
      || (Names(r.tags, x.id) && x.kind != DELETION_KIND
          && (EqIgnoreCase(x.pubkey, r.pubkey) || p.delegatedBy(x, r.pubkey)))
      || StoreConvergence.Cuts(r.pubkey, Deletion.Targets(r.tags), r.createdAt, x)
    else
      IsRequest(p, r) && EqIgnoreCase(x.pubkey, r.pubkey) && x.createdAt <= r.createdAt
  }

  /** An address names no moderation event, so only a kind:5's ids matter there. */
  lemma AddressesMissModeration(requester: string, tags: seq<seq<string>>, created: nat, x: Event)
    requires IsGroupKind(x.kind)
    ensures !StoreConvergence.Cuts(requester, Deletion.Targets(tags), created, x)
  {
  }

  /** An event is withdrawn by a kind:5 that names its full id, unless it is one
      itself, and comes from its author or the delegator it was published for; by
      an author's kind:5 that names its address; or by an honoured vanish of its
      author up to the time of the request. */
  lemma WithdrawsExactly(p: Policy, r: Event, x: Event)
    ensures Withdraws(p, r, x) <==>
      || (&& r.kind == 5 && x.kind != 5 && (EqIgnoreCase(x.pubkey, r.pubkey) || p.delegatedBy(x, r.pubkey))
          && exists i :: && 0 <= i < |r.tags| && |r.tags[i]| >= 2 && r.tags[i][0] == "e"
                         && EqIgnoreCase(r.tags[i][1], x.id))
      || (r.kind == 5 && StoreLaws.ReachedByAddress(r.pubkey, Deletion.Targets(r.tags), r.createdAt, x))
      || (r.kind == 62 && p.honours(r) && EqIgnoreCase(x.pubkey, r.pubkey) && x.createdAt <= r.createdAt)
  {
    StoreLaws.CutsExactly(r.pubkey, Deletion.Targets(r.tags), r.createdAt, x);
  }

  /** A key counts as vanished, in lower or upper case, once a stored kind:62 of it
      is honoured. */
  lemma VanishingExactly(p: Policy, requests: seq<Event>, key: string)
    ensures key in Vanishing(p, requests) <==>
      exists r :: && r in requests && r.kind == 62 && p.honours(r)
                  && (key == Lower(r.pubkey) || key == Upper(r.pubkey))
  {
    if r :| r in requests && r.kind == 62 && p.honours(r) && (key == Lower(r.pubkey) || key == Upper(r.pubkey)) {
      assert key in Spellings(r.pubkey);
    }
  }

  function WithdrawnBy(p: Policy, r: Event, stored: seq<Event>): set<string> {
    set x | x in stored && Withdraws(p, r, x) :: x.id
  }

  /** What some of the requests remove. */
  function WithdrawnByAny(p: Policy, requests: seq<Event>, stored: seq<Event>): set<string> {
    set x, r | x in stored && r in requests && Withdraws(p, r, x) :: x.id
  }

  /** What some stored request removes. */
  function Reached(p: Policy, stored: seq<Event>): set<string> {
    WithdrawnByAny(p, stored, stored)
  }

  /** Both spellings of a key, as the replays collect vanished keys. */
  function Spellings(pubkey: string): set<string> { {Lower(pubkey), Upper(pubkey)} }

  function Vanishing(p: Policy, requests: seq<Event>): set<string> {
    set r, k | r in requests && r.kind == VANISH_KIND && IsRequest(p, r) && k in Spellings(r.pubkey) :: k
  }

  /** The requests of a database, in whatever order they are read. */
  ghost predicate Page(p: Policy, stored: seq<Event>, page: seq<Event>) {
    forall r :: r in page <==> r in stored && IsRequest(p, r)
  }

  lemma WithdrawnSnoc(p: Policy, stored: seq<Event>, page: seq<Event>, i: nat)
    requires UniqueIds(stored) && i < |page|
    ensures
      var before := WithdrawnByAny(p, page[..i], stored);
      Without(Without(stored, before), WithdrawnBy(p, page[i], Without(stored, before)))
        == Without(stored, WithdrawnByAny(p, page[..i + 1], stored))
  {
    var before := WithdrawnByAny(p, page[..i], stored);
    WithoutTwice(stored, before, WithdrawnBy(p, page[i], Without(stored, before)));
    WithdrawnMore(p, stored, page[..i], page[i]);
    assert page[..i + 1] == page[..i] + [page[i]];
  }

  lemma WithdrawnMore(p: Policy, stored: seq<Event>, page: seq<Event>, r: Event)
    requires UniqueIds(stored)
    ensures
      var before := WithdrawnByAny(p, page, stored);
      before + WithdrawnBy(p, r, Without(stored, before)) == WithdrawnByAny(p, page + [r], stored)
  {
    var before, all := WithdrawnByAny(p, page, stored), WithdrawnByAny(p, page + [r], stored);
    var more := WithdrawnBy(p, r, Without(stored, before));
    forall id ensures id in before + more <==> id in all {
      WithdrawnOneMore(p, stored, page, r, id);
    }
  }

  lemma WithdrawnOneMore(p: Policy, stored: seq<Event>, page: seq<Event>, r: Event, id: string)
    requires UniqueIds(stored)
    ensures
      var before := WithdrawnByAny(p, page, stored);
      id in before || id in WithdrawnBy(p, r, Without(stored, before)) <==> id in WithdrawnByAny(p, page + [r], stored)
  {
    var before := WithdrawnByAny(p, page, stored);
    var left := Without(stored, before);
    if id in before {
      var x, q :| x in stored && q in page && Withdraws(p, q, x) && x.id == id;
      assert q in page + [r];
    } else if id in WithdrawnBy(p, r, left) {
      var x :| x in left && Withdraws(p, r, x) && x.id == id;
      var k :| 0 <= k < |left| && left[k] == x;
      assert x in stored && (page + [r])[|page|] == r;
    }
  }

  /** Applying the stored requests one after the other removes exactly what some
      stored request removes, in whatever order they come, and completes exactly
      the honoured vanishes. */
  method ApplyStoredRemovals(p: Policy, stored: seq<Event>, page: seq<Event>)
    returns (after: seq<Event>, vanished: set<string>)
    requires UniqueIds(stored) && Page(p, stored, page)
    ensures after == Without(stored, Reached(p, stored)) && vanished == Vanishing(p, stored)
  {
    after, vanished := stored, {};
    WithoutNothing(stored, WithdrawnByAny(p, page[..0], stored));
    for i := 0 to |page|
      invariant after == Without(stored, WithdrawnByAny(p, page[..i], stored))
      invariant vanished == Vanishing(p, page[..i])
    {
      WithdrawnSnoc(p, stored, page, i);
      VanishingSnoc(p, page, i);
      after := Without(after, WithdrawnBy(p, page[i], after));
      if page[i].kind == VANISH_KIND && p.honours(page[i]) {
        vanished := vanished + Spellings(page[i].pubkey);
      }
    }
    assert page[..|page|] == page;
    PageIsEnough(p, stored, page);
  }

  lemma VanishingSnoc(p: Policy, page: seq<Event>, i: nat)
    requires i < |page|
    ensures Vanishing(p, page[..i + 1]) == Vanishing(p, page[..i])
      + if page[i].kind == VANISH_KIND && p.honours(page[i]) then Spellings(page[i].pubkey) else {}
  {
    assert page[..i + 1] == page[..i] + [page[i]];
  }

  lemma PageIsEnough(p: Policy, stored: seq<Event>, page: seq<Event>)
    requires Page(p, stored, page)
    ensures WithdrawnByAny(p, page, stored) == Reached(p, stored) && Vanishing(p, page) == Vanishing(p, stored)
  {
    assert forall r, x :: Withdraws(p, r, x) ==> IsRequest(p, r);
  }
}
