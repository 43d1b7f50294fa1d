/** The access state as it runs: the blocked-IP list with its lookup set, the
    state ops are applied to in place, and the CLI's table of persisted keys. */
module AccessStore {
  import opened Text
  import opened Access

  /** The blocked-IP list; `parsed` answers every request. */
  class BlockedIps {
    const text: IpText
    var entries: seq<Entry>
    var parsed: set<Ip>

    ghost predicate Valid()
      reads this
    {
      parsed == ParseEntries(text, entries)
    }

    /** From a config section or a persisted snapshot: any entries, with
        duplicates and unparsable ones. */
    constructor (text: IpText, entries: seq<Entry>)
      ensures this.text == text && this.entries == entries && Valid()
    {
      this.text, this.entries := text, entries;
      parsed := ParseEntries(text, entries);
    }

    /** A peer is blocked exactly when some entry names its address, whatever
        spelling either was given in. */
    method Blocks(peer: Ip) returns (r: bool)
      requires Valid()
      ensures r <==> exists i :: 0 <= i < |entries| && ParseEntry(text, entries[i]) == Some(Normalize(peer))
    {
      r := Normalize(peer) in parsed;
    }

    method Push(entry: string, reason: string)
      requires Valid()
      modifies this
      ensures Valid()
      ensures entries ==
        if text.parse(entry).None? || Normalize(text.parse(entry).value) in old(parsed) then old(entries)
        else old(entries) + [Entry(entry, reason)]
    {
      var ip := text.parse(entry);
      if ip.None? {
        return;
      }
      if Normalize(ip.value) !in parsed {
        FindIpPush(text, entries, Entry(entry, reason), ip.value);
        parsed := parsed + {Normalize(ip.value)};
        entries := entries + [Entry(entry, reason)];
      }
    }

    method SetReason(ip: Ip, reason: string)
      requires Valid()
      modifies this`entries
      ensures Valid() && entries == Access.SetReason(text, old(entries), ip, reason) && parsed == old(parsed)
    {
      FindIpSetReason(text, entries, ip, reason, ip);
      var i := IndexOf(text, entries, Normalize(ip));
      if i < |entries| {
        SetReasonAt(text, entries, ip, reason, i);
        entries := entries[i := entries[i].(reason := reason)];
      } else {
        SetReasonNowhere(text, entries, ip, reason);
      }
    }

    method Remove(ip: Ip)
      requires Valid()
      modifies this
      ensures Valid() && entries == RetainIp(text, old(entries), ip) && parsed == old(parsed) - {ip}
    {
      FindIpRetain(text, entries, ip, ip);
      entries := RetainIp(text, entries, ip);
      parsed := parsed - {ip};
    }
  }

  /** The first entry for an address, or the end of the list. */
  method IndexOf(t: IpText, entries: seq<Entry>, ip: Ip) returns (i: nat)
    ensures i <= |entries| && (i < |entries| ==> ParseEntry(t, entries[i]) == Some(ip))
    ensures forall k :: 0 <= k < i ==> ParseEntry(t, entries[k]) != Some(ip)
  {
    i := 0;
    while i < |entries|
      invariant i <= |entries| && forall k :: 0 <= k < i ==> ParseEntry(t, entries[k]) != Some(ip)
    {
      if ParseEntry(t, entries[i]) == Some(ip) {
        return;
      }
      i := i + 1;
    }
  }

  lemma {:induction false} SetReasonAt(t: IpText, entries: seq<Entry>, ip: Ip, reason: string, i: nat)
    requires i < |entries| && ParseEntry(t, entries[i]) == Some(Normalize(ip))
    requires forall k :: 0 <= k < i ==> ParseEntry(t, entries[k]) != Some(Normalize(ip))
    ensures Access.SetReason(t, entries, ip, reason) == entries[i := entries[i].(reason := reason)]
    decreases i
  {
    if i == 0 {
      assert entries[0 := entries[0].(reason := reason)] == [entries[0].(reason := reason)] + entries[1..];
    } else {
      var rest := entries[1..];
      forall k | 0 <= k < i - 1 ensures ParseEntry(t, rest[k]) != Some(Normalize(ip)) {
        assert rest[k] == entries[k + 1];
      }
      SetReasonAt(t, rest, ip, reason, i - 1);
      assert entries[i := entries[i].(reason := reason)] ==
        [entries[0]] + rest[i - 1 := rest[i - 1].(reason := reason)];
    }
  }

  lemma {:induction false} SetReasonNowhere(t: IpText, entries: seq<Entry>, ip: Ip, reason: string)
    requires forall k :: 0 <= k < |entries| ==> ParseEntry(t, entries[k]) != Some(Normalize(ip))
    ensures Access.SetReason(t, entries, ip, reason) == entries
    decreases |entries|
  {
    if entries != [] {
      SetReasonNowhere(t, entries[1..], ip, reason);
    }
  }

  /** The state the daemon mutates and the journal is replayed onto. */
  class AccessState {
    const text: IpText
    const blockedIps: BlockedIps
    var blockedPubkeys: seq<Entry>
    var allowedPubkeys: seq<Entry>
    var blockedKinds: seq<nat>
    var allowedKinds: seq<nat>
    var restrictRelay: bool
    var methodGrants: map<string, seq<string>>

    ghost predicate Valid()
      reads this, blockedIps
    {
      blockedIps.text == text && blockedIps.Valid()
    }

    ghost function View(): AccessControl
      reads this, blockedIps
    {
      AccessControl(blockedPubkeys, allowedPubkeys, blockedKinds, allowedKinds,
                    blockedIps.entries, blockedIps.parsed, restrictRelay, methodGrants)
    }

    constructor (text: IpText, s: AccessControl)
      requires IpsOk(text, s)
      ensures this.text == text && Valid() && View() == s && fresh(blockedIps)
    {
      this.text := text;
      blockedPubkeys, allowedPubkeys := s.blockedPubkeys, s.allowedPubkeys;
      blockedKinds, allowedKinds := s.blockedKinds, s.allowedKinds;
      restrictRelay, methodGrants := s.restrictRelay, s.methodGrants;
      blockedIps := new BlockedIps(text, s.blockedIps);
    }

    /** Applies one op in place. */
    method Apply(op: AccessOp)
      requires Valid()
      modifies this, blockedIps
      ensures Valid() && View() == ApplyOp(text, old(View()), op)
    {
      match op {
        case BanPubkey(pubkey, reason, insensitive) =>
          allowedPubkeys := Retain(allowedPubkeys, insensitive, pubkey);
          blockedPubkeys := Register(blockedPubkeys, insensitive, pubkey, reason);
        case UnbanPubkey(pubkey, insensitive) =>
          blockedPubkeys := Retain(blockedPubkeys, insensitive, pubkey);
        case AllowPubkey(pubkey, reason, insensitive) =>
          blockedPubkeys := Retain(blockedPubkeys, insensitive, pubkey);
          allowedPubkeys := Register(allowedPubkeys, insensitive, pubkey, reason);
        case UnallowPubkey(pubkey, insensitive) =>
          allowedPubkeys := Retain(allowedPubkeys, insensitive, pubkey);
        case DenyKind(kind) =>
          if kind !in blockedKinds {
            blockedKinds := blockedKinds + [kind];
          }
          allowedKinds := RetainKind(allowedKinds, kind);
        case UndenyKind(kind) => blockedKinds := RetainKind(blockedKinds, kind);
        case AllowKind(kind) =>
          if kind !in allowedKinds {
            allowedKinds := allowedKinds + [kind];
          }
        case UnallowKind(kind) => allowedKinds := RetainKind(allowedKinds, kind);
        case BlockIp(ip, reason) => Block(ip, reason);
        case UnblockIp(ip) => blockedIps.Remove(ip);
        case GrantMethod(pubkey, name) =>
          var key := Lower(pubkey);
          var methods := if key in methodGrants then methodGrants[key] else [];
          methodGrants := methodGrants[key := if name in methods then methods else methods + [name]];
        case UngrantMethod(pubkey, name) => methodGrants := Ungrant(methodGrants, pubkey, name);
      }
    }

    method Block(ip: Ip, reason: string)
      requires Valid()
      modifies blockedIps
      ensures Valid() && View() == ApplyOp(text, old(View()), BlockIp(ip, reason))
    {
      ghost var s := View();
      ApplyKeepsIps(text, s, BlockIp(ip, reason));
      if Normalize(ip) in blockedIps.parsed {
        blockedIps.SetReason(ip, reason);
      } else {
        var name := text.show(ip);
        blockedIps.Push(name, reason);
      }
    }
  }

  // ----- the CLI's persisted keys -----

  /** The `access` blob as it reads back: pubkeys live under their own key, and
      the lookup set is rebuilt from the entries. */
  function Reloaded(t: IpText, s: AccessControl): AccessControl {
    s.(blockedPubkeys := [], allowedPubkeys := [], parsedIps := ParseEntries(t, s.blockedIps))
  }

  datatype PubkeyLists = PubkeyLists(deny: seq<Entry>, allow: seq<Entry>)

  /** A journal entry that does not decode is `None`. */
  datatype Table = Table(
    access: Option<AccessControl>,
    relayPubkeys: Option<PubkeyLists>,
    blossomAllow: Option<seq<string>>,
    journal: seq<Option<AccessOp>>)

  datatype PersistedAccess = PersistedAccess(
    access: Option<AccessControl>,
    relayDeny: seq<Entry>,
    relayAllow: seq<Entry>,
    blossomAllow: seq<string>)

  function Decoded(journal: seq<Option<AccessOp>>): seq<AccessOp> {
    if journal == [] then []
    else
      var rest := Decoded(journal[..|journal| - 1]);
      var last := journal[|journal| - 1];
      if last.Some? then rest + [last.value] else rest
  }

  function Base(table: Table): AccessControl {
    var s := if table.access.Some? then table.access.value else DEFAULT;
    var lists := if table.relayPubkeys.Some? then table.relayPubkeys.value else PubkeyLists([], []);
    s.(blockedPubkeys := lists.deny, allowedPubkeys := lists.allow)
  }

  /** The state a load arrives at: the persisted base with the journal folded in. */
  function Folded(t: IpText, table: Table): AccessControl {
    Replay(t, Base(table), Decoded(table.journal))
  }

  function Loaded(t: IpText, table: Table): PersistedAccess {
    var s := Folded(t, table);
    PersistedAccess(
      if table.access.Some? || Decoded(table.journal) != [] then Some(s) else None,
      s.blockedPubkeys, s.allowedPubkeys,
      if table.blossomAllow.Some? then table.blossomAllow.value else [])
  }

  function Saved(t: IpText, table: Table, p: PersistedAccess): Table {
    Table(if p.access.Some? then Some(Reloaded(t, p.access.value)) else table.access,
          Some(PubkeyLists(p.relayDeny, p.relayAllow)), Some(p.blossomAllow), [])
  }

  ghost predicate TableOk(t: IpText, table: Table) {
    table.access.Some? ==> table.access.value == Reloaded(t, table.access.value)
  }

  lemma FoldSnoc(t: IpText, s: AccessControl, journal: seq<Option<AccessOp>>, i: nat)
    requires i < |journal|
    ensures
      var before, after := Decoded(journal[..i]), Decoded(journal[..i + 1]);
      && Replay(t, s, after) ==
           (if journal[i].Some? then ApplyOp(t, Replay(t, s, before), journal[i].value) else Replay(t, s, before))
      && (after == [] <==> before == [] && journal[i].None?)
  {
    assert journal[..i + 1][..i] == journal[..i];
    var before := Decoded(journal[..i]);
    if journal[i].Some? {
      assert (before + [journal[i].value])[..|before|] == before;
    }
  }

  /** The table, read and written by the CLI. */
  class AccessTable {
    const text: IpText
    var table: Table

    constructor (text: IpText, table: Table)
      ensures this.text == text && this.table == table
    {
      this.text, this.table := text, table;
    }

    /** Reads the persisted keys and folds the journal into them, skipping
        entries that do not decode. */
    method Load() returns (p: PersistedAccess)
      requires TableOk(text, table)
      ensures p == Loaded(text, table)
    {
      BaseOk(text, table);
      var journal, base := table.journal, Base(table);
      var state := new AccessState(text, base);
      var hadOps := false;
      for i := 0 to |journal|
        invariant fresh(state) && fresh(state.blockedIps) && state.Valid() && state.text == text
        invariant state.View() == Replay(text, base, Decoded(journal[..i]))
        invariant hadOps <==> Decoded(journal[..i]) != []
      {
        FoldSnoc(text, base, journal, i);
        if journal[i].Some? {
          hadOps := true;
          state.Apply(journal[i].value);
        }
      }
      assert journal[..|journal|] == journal;
      var s := AccessControl(state.blockedPubkeys, state.allowedPubkeys, state.blockedKinds, state.allowedKinds,
                             state.blockedIps.entries, state.blockedIps.parsed, state.restrictRelay,
                             state.methodGrants);
      p := PersistedAccess(
        if table.access.Some? || hadOps then Some(s) else None,
        s.blockedPubkeys, s.allowedPubkeys,
        if table.blossomAllow.Some? then table.blossomAllow.value else []);
    }

    /** Writes the whole state and deletes the journal, in one transaction. */
    method Save(p: PersistedAccess)
      modifies this
      ensures table == Saved(text, old(table), p)
    {
      var access := if p.access.Some? then Some(Reloaded(text, p.access.value)) else table.access;
      table := Table(access, Some(PubkeyLists(p.relayDeny, p.relayAllow)), Some(p.blossomAllow), []);
    }
  }

  lemma BaseOk(t: IpText, table: Table)
    requires TableOk(t, table)
    ensures IpsOk(t, Base(table))
  {
    assert ParseEntries(t, []) == {};
  }

  lemma {:induction false} ReplayKeepsIps(t: IpText, s: AccessControl, log: seq<AccessOp>)
    requires IpsOk(t, s)
    ensures IpsOk(t, Replay(t, s, log))
    decreases |log|
  {
    if log != [] {
      ReplayKeepsIps(t, s, log[..|log| - 1]);
      ApplyKeepsIps(t, Replay(t, s, log[..|log| - 1]), log[|log| - 1]);
    }
  }

  /** Load, save, load: folding the journal into the persisted keys loses and
      changes nothing, for any journal. */
  lemma LoadSaveLoad(t: IpText, table: Table)
    requires TableOk(t, table)
    ensures
      var saved := Saved(t, table, Loaded(t, table));
      TableOk(t, saved) && saved.journal == [] && Loaded(t, saved) == Loaded(t, table)
      && Folded(t, saved) == Folded(t, table)
  {
    BaseOk(t, table);
    ReplayKeepsIps(t, Base(table), Decoded(table.journal));
    var s := Folded(t, table);
    var saved := Saved(t, table, Loaded(t, table));
    assert Decoded(saved.journal) == [];
    if saved.access.Some? {
      assert Base(saved) == s;
    }
  }

  // ----- journals that mix how pubkeys are compared -----

  /** The theorem about replays needs one way of comparing pubkeys: a journal
      that mixes them can decide differently when it is replayed twice. */
  lemma MixedJournalIsNotIdempotent(t: IpText)
    ensures
      var s := DEFAULT.(blockedPubkeys := [Entry("AA", "")]);
      var log := [BanPubkey("aa", "", true), UnbanPubkey("AA", false)];
      !BlocksPubkey(Replay(t, s, log), "aa") && BlocksPubkey(Replay(t, Replay(t, s, log), log), "aa")
  {
    var s := DEFAULT.(blockedPubkeys := [Entry("AA", "")]);
    var log := [BanPubkey("aa", "", true), UnbanPubkey("AA", false)];
    assert Lower("AA") == "aa" && Lower("aa") == "aa";
    assert log[..1] == [log[0]] && [log[0]][..0] == [];
    assert [Entry("AA", "")][1..] == [];
    var once := Replay(t, s, log);
    assert Replay(t, s, []) == s;
    assert Replay(t, s, [log[0]]).blockedPubkeys == [Entry("AA", "")];
    assert once.blockedPubkeys == [];
    var again := Replay(t, once, log);
    assert Replay(t, once, []) == once;
    assert Replay(t, once, [log[0]]).blockedPubkeys == [Entry("aa", "")];
    assert [Entry("aa", "")][1..] == [];
    assert again.blockedPubkeys == [Entry("aa", "")];
    assert EqIgnoreCase(again.blockedPubkeys[0].name, "aa");
  }
}
