/** Nostr events and the tag accessors the relay reads them with. */
module Events {
  import opened Text

  datatype Event = Event(
    id: string,
    pubkey: string,
    createdAt: nat,
    kind: nat,
    tags: seq<seq<string>>,
    content: string,
    sig: string)

  ghost function Elements(events: seq<Event>): set<Event> {
    set e | e in events
  }

  const DELETION_KIND: nat := 5
  const VANISH_KIND: nat := 62
  const MOD_MIN: nat := 9000
  const PUT_USER: nat := 9000
  const REMOVE_USER: nat := 9001
  const DELETE_EVENT: nat := 9005
  const CREATE_GROUP: nat := 9007
  const DELETE_GROUP: nat := 9008
  const MOD_MAX: nat := 9020
  const JOIN: nat := 9021
  const LEAVE: nat := 9022
  const GROUP_META: nat := 39000
  const GROUP_PINS: nat := 39005
  const MEMBER_ADDED: nat := 44100
  const MEMBER_REMOVED: nat := 44101

  predicate IsEphemeralKind(kind: nat) { 20_000 <= kind < 30_000 }

  predicate IsReplaceableKind(kind: nat) { kind == 0 || kind == 3 || 10_000 <= kind < 20_000 }

  predicate IsAddressableKind(kind: nat) { 30_000 <= kind <= 39_999 }

  predicate IsMetaKind(kind: nat) { GROUP_META <= kind <= GROUP_PINS }

  /** The kinds the relay's group state is derived from. */
  predicate IsGroupKind(kind: nat) { MOD_MIN <= kind <= MOD_MAX || kind == JOIN || kind == LEAVE }

  /** The kinds the relay's NIP-43 roles are derived from. */
  predicate IsRoleKind(kind: nat) {
    kind == 33_534 || kind == 13_534 || kind == 8000 || kind == 8001 || kind == 28_934 || kind == 28_936
  }

  /** Whether some tag is `[name, value, ..]`. */
  predicate HasTag(tags: seq<seq<string>>, name: string, value: string) {
    exists i :: 0 <= i < |tags| && IsTag(tags[i], name, value)
  }

  predicate IsTag(tag: seq<string>, name: string, value: string) {
    |tag| >= 2 && tag[0] == name && tag[1] == value
  }

  /** The value of the first `[name, value, ..]` tag. */
  function FirstTagValue(tags: seq<seq<string>>, name: string): (r: Option<string>)
    ensures r.Some? ==> HasTag(tags, name, r.value)
  {
    if tags == [] then None
    else if |tags[0]| >= 2 && tags[0][0] == name then
      assert IsTag(tags[0], name, tags[0][1]);
      Some(tags[0][1])
    else
      var r := FirstTagValue(tags[1..], name);
      assert r.Some? ==> exists i ::
        0 <= i < |tags[1..]| && IsTag(tags[1..][i], name, r.value) && tags[1..][i] == tags[i + 1];
      r
  }

  /** The first tag of that name with a value has this value. */
  ghost predicate FirstValue(tags: seq<seq<string>>, name: string, value: string) {
    exists i :: 0 <= i < |tags| && FirstAt(tags, name, i) && tags[i][1] == value
  }

  /** Tag `i` is the first of that name with a value. */
  ghost predicate FirstAt(tags: seq<seq<string>>, name: string, i: nat)
    requires i < |tags|
  {
    |tags[i]| >= 2 && tags[i][0] == name && forall j :: 0 <= j < i ==> !(|tags[j]| >= 2 && tags[j][0] == name)
  }

  lemma {:induction false} FirstTagExactly(tags: seq<seq<string>>, name: string)
    ensures forall v :: FirstTagValue(tags, name) == Some(v) <==> FirstValue(tags, name, v)
    ensures FirstTagValue(tags, name) == None <==>
      forall i :: 0 <= i < |tags| ==> !(|tags[i]| >= 2 && tags[i][0] == name)
  {
    if tags != [] {
      var rest := tags[1..];
      FirstTagExactly(rest, name);
      if |tags[0]| >= 2 && tags[0][0] == name {
        assert FirstAt(tags, name, 0);
        forall i | 0 < i < |tags| ensures !FirstAt(tags, name, i) {
        }
      } else {
        forall i | 0 <= i < |rest| ensures FirstAt(tags, name, i + 1) <==> FirstAt(rest, name, i) {
          FirstAtCons(tags, name, i);
        }
        forall v ensures FirstValue(tags, name, v) <==> FirstValue(rest, name, v) {
          FirstValueCons(tags, name, v);
        }
        assert forall i :: 0 <= i < |rest| ==> rest[i] == tags[i + 1];
      }
    }
  }

  lemma FirstAtCons(tags: seq<seq<string>>, name: string, i: nat)
    requires i < |tags| - 1 && !(|tags[0]| >= 2 && tags[0][0] == name)
    ensures FirstAt(tags, name, i + 1) <==> FirstAt(tags[1..], name, i)
  {
    var rest := tags[1..];
    assert forall j :: 0 <= j < |rest| ==> rest[j] == tags[j + 1];
    if FirstAt(rest, name, i) {
      forall j | 0 <= j < i + 1 ensures !(|tags[j]| >= 2 && tags[j][0] == name) {
        if j > 0 {
          assert rest[j - 1] == tags[j];
        }
      }
    }
  }

  lemma FirstValueCons(tags: seq<seq<string>>, name: string, v: string)
    requires tags != [] && !(|tags[0]| >= 2 && tags[0][0] == name)
    ensures FirstValue(tags, name, v) <==> FirstValue(tags[1..], name, v)
  {
    var rest := tags[1..];
    if i :| 0 <= i < |tags| && FirstAt(tags, name, i) && tags[i][1] == v {
      FirstAtCons(tags, name, i - 1);
      assert rest[i - 1] == tags[i];
    }
    if i :| 0 <= i < |rest| && FirstAt(rest, name, i) && rest[i][1] == v {
      FirstAtCons(tags, name, i);
      assert rest[i] == tags[i + 1];
    }
  }

  /** Group id of a user or moderation event (its `h` tag). */
  function GroupId(e: Event): Option<string> { FirstTagValue(e.tags, "h") }

  /** Group id of a stored event: `d` for relay metadata, `h` otherwise. */
  function GroupIdAny(e: Event): Option<string> {
    if e.kind == MEMBER_ADDED || e.kind == MEMBER_REMOVED then None
    else if IsMetaKind(e.kind) then FirstTagValue(e.tags, "d")
    else GroupId(e)
  }

  /** Whether an event belongs to a group's history, relay metadata included. */
  predicate InGroup(e: Event, group: string) {
    HasTag(e.tags, "h", group) || (IsMetaKind(e.kind) && HasTag(e.tags, "d", group))
  }

  /** NIP-40: the earliest well-formed `expiration` tag. */
  function Expiry(tags: seq<seq<string>>): Option<nat> {
    if tags == [] then None
    else
      var rest := Expiry(tags[1..]);
      var own := if |tags[0]| >= 2 && tags[0][0] == "expiration" then ParseU64(tags[0][1]) else None;
      if own.None? then rest
      else if rest.None? || own.value <= rest.value then own
      else rest
  }

  predicate Expired(e: Event, now: nat) {
    var exp := Expiry(e.tags);
    exp.Some? && exp.value <= now
  }

  /** An `expiration` tag whose time has come. */
  predicate Due(tag: seq<string>, now: nat) {
    |tag| >= 2 && tag[0] == "expiration" && ParseU64(tag[1]).Some? && ParseU64(tag[1]).value <= now
  }

  ghost predicate AnyDue(tags: seq<seq<string>>, now: nat) {
    exists i :: 0 <= i < |tags| && Due(tags[i], now)
  }

  lemma AnyDueCons(tags: seq<seq<string>>, now: nat)
    requires tags != []
    ensures AnyDue(tags, now) <==> Due(tags[0], now) || AnyDue(tags[1..], now)
  {
    var rest := tags[1..];
    if i :| 0 <= i < |rest| && Due(rest[i], now) {
      assert Due(tags[i + 1], now);
    }
    if i :| 0 <= i < |tags| && Due(tags[i], now) {
      assert i > 0 ==> rest[i - 1] == tags[i];
    }
  }

  lemma {:induction false} ExpiryIsDue(tags: seq<seq<string>>, now: nat)
    ensures Expiry(tags).Some? && Expiry(tags).value <= now <==> AnyDue(tags, now)
  {
    if tags != [] {
      ExpiryIsDue(tags[1..], now);
      AnyDueCons(tags, now);
    }
  }

  /** An event has expired if and only if one of its `expiration` tags says so. */
  lemma ExpiredExactly(e: Event, now: nat)
    ensures Expired(e, now) <==> exists i :: 0 <= i < |e.tags| && Due(e.tags[i], now)
  {
    ExpiryIsDue(e.tags, now);
  }
}
