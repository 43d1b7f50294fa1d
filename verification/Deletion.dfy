/** The `a` targets of a NIP-09 deletion request: parsing, collapsing
    duplicates, and the cap on distinct targets. */
module Deletion {
  import opened Text
  import opened Events
  import opened Store
  import opened StoreRuns
  import opened StoreConvergence

  const MAX_DELETION_ADDRESSES: nat := 512

  // ----- addresses as text -----

  /** Where the first colon is, or the length when there is none. */
  function Colon(s: string): (i: nat)
    ensures i <= |s| && ':' !in s[..i] && (i < |s| ==> s[i] == ':')
  {
    if s == "" || s[0] == ':' then 0
    else
      var rest := Colon(s[1..]);
      assert s[..rest + 1] == [s[0]] + s[1..][..rest];
      1 + rest
  }

  function ParseAddress(value: string): Option<Address> {
    var i := Colon(value);
    var kind := ParseU64(value[..i]);
    if kind.None? || i == |value| then None
    else
      var rest := value[i + 1..];
      var j := Colon(rest);
      if j == |rest| then None else Some(Address(kind.value, rest[..j], rest[j + 1..]))
  }

  ghost function Show(kind: string, pubkey: string, d: string): string {
    kind + ":" + (pubkey + ":" + d)
  }

  lemma ColonAt(a: string, b: string)
    requires ':' !in a
    ensures Colon(a + ":" + b) == |a|
    ensures (a + ":" + b)[..|a|] == a && (a + ":" + b)[|a| + 1..] == b
  {
    var s := a + ":" + b;
    assert s[|a|] == ':';
    assert forall k :: 0 <= k < |a| ==> s[k] == a[k];
    assert forall k :: 0 <= k < Colon(s) ==> s[k] == s[..Colon(s)][k];
  }

  lemma NumbersHaveNoColon(s: string)
    requires ParseU64(s).Some?
    ensures ':' !in s
  {
    if |s| > 1 && s[0] == '+' {
      assert s == ['+'] + s[1..];
    }
  }

  lemma SplitAt(s: string, i: nat)
    requires i < |s| && s[i] == ':'
    ensures s == s[..i] + ":" + s[i + 1..]
  {
  }

  lemma ParsedShows(value: string)
    requires ParseAddress(value).Some?
    ensures
      var a := ParseAddress(value).value;
      var kind := value[..Colon(value)];
      ParseU64(kind) == Some(a.kind) && ':' !in a.pubkey && value == Show(kind, a.pubkey, a.d)
  {
    var rest := value[Colon(value) + 1..];
    SplitAt(value, Colon(value));
    SplitAt(rest, Colon(rest));
  }

  lemma ShownParses(kind: string, pubkey: string, d: string)
    requires ParseU64(kind).Some? && ':' !in pubkey
    ensures ParseAddress(Show(kind, pubkey, d)) == Some(Address(ParseU64(kind).value, pubkey, d))
  {
    NumbersHaveNoColon(kind);
    ColonAt(kind, pubkey + ":" + d);
    ColonAt(pubkey, d);
  }

  /** An address parses exactly when it is a kind, a colon, a pubkey without a
      colon, a colon and any identifier, colons included. */
  lemma ParsesExactly(value: string, a: Address)
    ensures ParseAddress(value) == Some(a) <==>
      exists kind :: ParseU64(kind) == Some(a.kind) && ':' !in a.pubkey && value == Show(kind, a.pubkey, a.d)
  {
    if ParseAddress(value) == Some(a) {
      ParsedShows(value);
    }
    if kind :| ParseU64(kind) == Some(a.kind) && ':' !in a.pubkey && value == Show(kind, a.pubkey, a.d) {
      ShownParses(kind, a.pubkey, a.d);
    }
  }

  // ----- collecting the targets -----

  function Target(tag: seq<string>): Option<Address> {
    if |tag| < 2 || tag[0] != "a" then None else ParseAddress(tag[1])
  }

  /** Every address the tags name, repetitions included. */
  function Targets(tags: seq<seq<string>>): seq<Address> {
    if tags == [] then []
    else
      var last := Target(tags[|tags| - 1]);
      Targets(tags[..|tags| - 1]) + if last.Some? then [last.value] else []
  }

  /** The first occurrences, in order. */
  function Distinct(addresses: seq<Address>): seq<Address> {
    if addresses == [] then []
    else
      var rest := Distinct(addresses[..|addresses| - 1]);
      if addresses[|addresses| - 1] in rest then rest else rest + [addresses[|addresses| - 1]]
  }

  function Capped(addresses: seq<Address>): seq<Address> {
    if |addresses| <= MAX_DELETION_ADDRESSES then addresses else addresses[..MAX_DELETION_ADDRESSES]
  }

  ghost predicate NoRepeats(addresses: seq<Address>) {
    forall i, j :: 0 <= i < j < |addresses| ==> addresses[i] != addresses[j]
  }

  lemma {:induction false} DistinctExact(addresses: seq<Address>)
    ensures NoRepeats(Distinct(addresses))
    ensures forall a :: a in Distinct(addresses) <==> a in addresses
    decreases |addresses|
  {
    if addresses != [] {
      var prefix, last := addresses[..|addresses| - 1], addresses[|addresses| - 1];
      DistinctExact(prefix);
      assert addresses == prefix + [last];
    }
  }

  /** One tag more adds at most one address, at the end. */
  lemma DistinctSnoc(tags: seq<seq<string>>, k: nat)
    requires k < |tags|
    ensures
      var before, after := Distinct(Targets(tags[..k])), Distinct(Targets(tags[..k + 1]));
      match Target(tags[k])
      case None => after == before
      case Some(a) => after == if a in before then before else before + [a]
  {
    assert tags[..k + 1][..k] == tags[..k];
    var before := Targets(tags[..k]);
    if Target(tags[k]).Some? {
      assert (before + [Target(tags[k]).value])[..|before|] == before;
    } else {
      assert before + [] == before;
    }
  }

  lemma {:induction false} DistinctGrows(tags: seq<seq<string>>, k: nat)
    requires k <= |tags|
    ensures Distinct(Targets(tags[..k])) <= Distinct(Targets(tags))
    decreases |tags| - k
  {
    if k < |tags| {
      DistinctSnoc(tags, k);
      DistinctGrows(tags, k + 1);
    } else {
      assert tags[..k] == tags;
    }
  }

  /** What live intake acts on: the first distinct targets, up to the cap. */
  method DeletionAddresses(tags: seq<seq<string>>) returns (out: seq<Address>)
    ensures out == Capped(Distinct(Targets(tags)))
  {
    var seen: set<Address> := {};
    out := [];
    for k := 0 to |tags|
      invariant out == Distinct(Targets(tags[..k])) && |out| <= MAX_DELETION_ADDRESSES
      invariant forall a :: a in seen <==> a in out
    {
      DistinctSnoc(tags, k);
      if |tags[k]| < 2 || tags[k][0] != "a" {
        continue;
      }
      var address := ParseAddress(tags[k][1]);
      if address.None? {
        continue;
      }
      if |out| >= MAX_DELETION_ADDRESSES {
        DistinctGrows(tags, k);
        assert Distinct(Targets(tags))[..|out|] == out;
        return;
      }
      if address.value !in seen {
        seen := seen + {address.value};
        out := out + [address.value];
      }
    }
    assert tags[..|tags|] == tags;
  }

  /** What migration acts on: every distinct target. */
  method DeletionAddressesAll(tags: seq<seq<string>>) returns (out: seq<Address>)
    ensures out == Distinct(Targets(tags))
  {
    var seen: set<Address> := {};
    out := [];
    for k := 0 to |tags|
      invariant out == Distinct(Targets(tags[..k]))
      invariant forall a :: a in seen <==> a in out
    {
      DistinctSnoc(tags, k);
      if |tags[k]| < 2 || tags[k][0] != "a" {
        continue;
      }
      var address := ParseAddress(tags[k][1]);
      if address.Some? && address.value !in seen {
        seen := seen + {address.value};
        out := out + [address.value];
      }
    }
    assert tags[..|tags|] == tags;
  }

  /** Whether live intake must reject the request. */
  method ExceedsCap(tags: seq<seq<string>>) returns (exceeds: bool)
    ensures exceeds <==> |Distinct(Targets(tags))| > MAX_DELETION_ADDRESSES
  {
    var seen: set<Address> := {};
    ghost var out: seq<Address> := [];
    for k := 0 to |tags|
      invariant out == Distinct(Targets(tags[..k])) && |seen| == |out| <= MAX_DELETION_ADDRESSES
      invariant forall a :: a in seen <==> a in out
    {
      DistinctSnoc(tags, k);
      if |tags[k]| < 2 || tags[k][0] != "a" {
        continue;
      }
      var address := ParseAddress(tags[k][1]);
      if address.Some? && address.value !in seen {
        seen := seen + {address.value};
        out := out + [address.value];
        if |seen| > MAX_DELETION_ADDRESSES {
          DistinctGrows(tags, k + 1);
          return true;
        }
      }
    }
    assert tags[..|tags|] == tags;
    return false;
  }

  // ----- what the request does to the store -----

  /** Order and repetition of the targets do not matter: requests naming the
      same addresses leave the same store. */
  lemma SameTargetsSameStore(
    u: string -> Event, s: State, requester: string, xs: seq<Address>, ys: seq<Address>, created: nat)
    requires Inv(s) && Known(u, s) && forall a :: a in xs <==> a in ys
    ensures AddressesStep(s, requester, xs, created).0 == AddressesStep(s, requester, ys, created).0
  {
    var x, y := AddressesStep(s, requester, xs, created).0, AddressesStep(s, requester, ys, created).0;
    AddressesCut(u, s, requester, xs, created);
    AddressesCut(u, s, requester, ys, created);
    AddressesKeep(u, s, requester, xs, created);
    AddressesKeep(u, s, requester, ys, created);
    forall slot ensures Hit(requester, xs, slot) <==> Hit(requester, ys, slot) {
      SameHits(requester, xs, ys, slot);
    }
    SameCut(s, requester, xs, ys, created, x, y);
    IndexDetermined(x.stored, x.slots, y.slots);
  }

  lemma SameHits(requester: string, xs: seq<Address>, ys: seq<Address>, slot: Slot)
    requires forall a :: a in xs <==> a in ys
    ensures Hit(requester, xs, slot) <==> Hit(requester, ys, slot)
  {
    if Hit(requester, xs, slot) {
      var i :| 0 <= i < |xs| && EqIgnoreCase(xs[i].pubkey, requester) && AddressSlot(xs[i]) == slot;
      assert xs[i] in ys;
    }
    if Hit(requester, ys, slot) {
      var i :| 0 <= i < |ys| && EqIgnoreCase(ys[i].pubkey, requester) && AddressSlot(ys[i]) == slot;
      assert ys[i] in xs;
    }
  }

  lemma SameCut(s: State, requester: string, xs: seq<Address>, ys: seq<Address>, created: nat, x: State, y: State)
    requires forall slot :: Hit(requester, xs, slot) <==> Hit(requester, ys, slot)
    requires CutState(s, requester, xs, created, x) && CutState(s, requester, ys, created, y)
    ensures x.stored == y.stored && x.deletedIds == y.deletedIds && x.addressTombstones == y.addressTombstones
  {
    assert forall e :: Cuts(requester, xs, created, e) <==> Cuts(requester, ys, created, e);
    assert x.stored == y.stored && x.deletedIds == y.deletedIds;
    SameMarks(x, y);
  }

  /** Two cut tables that block the same versions are the same table. */
  lemma SameMarks(x: State, y: State)
    requires forall slot, c: nat :: AddressBlocked(x, slot, c) <==> AddressBlocked(y, slot, c)
    ensures x.addressTombstones == y.addressTombstones
  {
    forall slot ensures slot in x.addressTombstones <==> slot in y.addressTombstones {
      assert AddressBlocked(x, slot, 0) <==> AddressBlocked(y, slot, 0);
    }
    forall slot | slot in x.addressTombstones ensures x.addressTombstones[slot] == y.addressTombstones[slot] {
      assert AddressBlocked(y, slot, x.addressTombstones[slot]);
      assert AddressBlocked(x, slot, y.addressTombstones[slot]);
    }
  }

  /** A request under the cap does the same live, in migration, and as written:
      neither the cap nor collapsing duplicates loses a target. */
  lemma AcceptedRequestIsWhole(u: string -> Event, s: State, requester: string, tags: seq<seq<string>>, created: nat)
    requires Inv(s) && Known(u, s) && |Distinct(Targets(tags))| <= MAX_DELETION_ADDRESSES
    ensures AddressesStep(s, requester, Capped(Distinct(Targets(tags))), created).0
      == AddressesStep(s, requester, Targets(tags), created).0
  {
    DistinctExact(Targets(tags));
    SameTargetsSameStore(u, s, requester, Distinct(Targets(tags)), Targets(tags), created);
  }
}
