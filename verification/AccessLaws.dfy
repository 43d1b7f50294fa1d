/** What the access lists decide, from their entries, and what a journal makes of
    a decision, from its operations. */
module AccessLaws {
  import opened Text
  import opened Access

  // ----- decisions -----

  /** Two spellings of one address: the same, or an IPv4 address and the IPv6
      address that maps it. */
  predicate SameAddress(a: Ip, b: Ip) {
    a == b || MapsTo(a, b) || MapsTo(b, a)
  }

  predicate MapsTo(a: Ip, b: Ip) {
    a.V6? && b.V4? && b.bits < 0x1_0000_0000 && a.bits == 0xFFFF_0000_0000 + b.bits
  }

  lemma NormalizeExactly(a: Ip, b: Ip)
    ensures Normalize(a) == Normalize(b) <==> SameAddress(a, b)
    ensures Normalize(a) == a <==> !(exists x :: MapsTo(a, x))
  {
    if a.V6? && 0xFFFF_0000_0000 <= a.bits < 0xFFFF_0000_0000 + 0x1_0000_0000 {
      assert MapsTo(a, V4(a.bits - 0xFFFF_0000_0000));
    }
  }

  ghost predicate Named(list: seq<Entry>, pubkey: string) {
    exists i :: 0 <= i < |list| && EqIgnoreCase(list[i].name, pubkey)
  }

  ghost predicate NamesAddress(t: IpText, e: Entry, ip: Ip) {
    t.parse(e.name).Some? && SameAddress(t.parse(e.name).value, ip)
  }

  /** A pubkey is blocked when the deny list names it in any case, and allowed when
      it is not and the relay is open or the allow list names it. A kind is allowed
      when it is not denied and the allow list is empty or has it. An address is
      blocked when an entry names it in any spelling, and a method is granted when
      an entry of the pubkey in any case has it. */
  lemma DecisionsExactly(t: IpText, s: AccessControl, pubkey: string, kind: nat, ip: Ip, rpc: string)
    requires IpsOk(t, s)
    ensures BlocksPubkey(s, pubkey) <==> Named(s.blockedPubkeys, pubkey)
    ensures AllowsPubkey(s, pubkey) <==>
      !Named(s.blockedPubkeys, pubkey) && (s.restrictRelay ==> Named(s.allowedPubkeys, pubkey))
    ensures AllowsKind(s, kind) <==> kind !in s.blockedKinds && (|s.allowedKinds| > 0 ==> kind in s.allowedKinds)
    ensures IsIpBlocked(s, ip) <==> exists i :: 0 <= i < |s.blockedIps| && NamesAddress(t, s.blockedIps[i], ip)
    ensures GrantsMethod(s, pubkey, rpc) <==>
      exists k :: k in s.methodGrants && EqIgnoreCase(k, pubkey) && rpc in s.methodGrants[k]
  {
    forall i | 0 <= i < |s.blockedIps|
      ensures NamesAddress(t, s.blockedIps[i], ip) <==> ParseEntry(t, s.blockedIps[i]) == Some(Normalize(ip))
    {
      if t.parse(s.blockedIps[i].name).Some? {
        NormalizeExactly(t.parse(s.blockedIps[i].name).value, ip);
      }
    }
  }

  /** The same from the cells the journal writes. */
  lemma CellsDecideExactly(t: IpText, s: AccessControl, pubkey: string, kind: nat, ip: Ip)
    requires IpsOk(t, s)
    ensures BlocksPubkey(s, pubkey) <==> Read(t, true, s, Denied(Lower(pubkey))).Some?
    ensures AllowsPubkey(s, pubkey) <==>
      && Read(t, true, s, Denied(Lower(pubkey))).None?
      && (s.restrictRelay ==> Read(t, true, s, Allowed(Lower(pubkey))).Some?)
    ensures AllowsKind(s, kind) <==>
      && Read(t, true, s, DeniedKind(kind)).None?
      && ((forall k :: Read(t, true, s, AllowedKind(k)).None?) || Read(t, true, s, AllowedKind(kind)).Some?)
    ensures IsIpBlocked(s, ip) <==> Read(t, true, s, Blocked(Normalize(ip))).Some?
  {
    ListedByKey(s.blockedPubkeys, pubkey);
    ListedByKey(s.allowedPubkeys, pubkey);
    FindIpParsed(t, s.blockedIps, Normalize(ip));
    if s.allowedKinds != [] {
      assert Read(t, true, s, AllowedKind(s.allowedKinds[0])).Some?;
    }
  }

  // ----- what one operation makes of a decision -----

  predicate Bans(op: AccessOp, pubkey: string) { op.BanPubkey? && EqIgnoreCase(op.pubkey, pubkey) }

  predicate Unbans(op: AccessOp, pubkey: string) {
    (op.UnbanPubkey? || op.AllowPubkey?) && EqIgnoreCase(op.pubkey, pubkey)
  }

  predicate Lets(op: AccessOp, pubkey: string) { op.AllowPubkey? && EqIgnoreCase(op.pubkey, pubkey) }

  predicate Unlets(op: AccessOp, pubkey: string) {
    (op.UnallowPubkey? || op.BanPubkey?) && EqIgnoreCase(op.pubkey, pubkey)
  }

  predicate Blocks(op: AccessOp, ip: Ip) { op.BlockIp? && SameAddress(op.ip, ip) }

  /** An unblock takes the normalised address. */
  predicate Unblocks(op: AccessOp, ip: Ip) {
    op.UnblockIp? && SameAddress(op.ip, ip) && Normalize(op.ip) == op.ip
  }

  predicate Grants(op: AccessOp, pubkey: string, rpc: string) {
    op.GrantMethod? && EqIgnoreCase(op.pubkey, pubkey) && op.rpc == rpc
  }

  predicate Ungrants(op: AccessOp, pubkey: string, rpc: string) {
    op.UngrantMethod? && EqIgnoreCase(op.pubkey, pubkey) && op.rpc == rpc
  }

  /** An operation that compares pubkeys without case. */
  predicate AnyCase(op: AccessOp) { NamesPubkey(op) ==> op.insensitive }

  lemma ListsRetain(list: seq<Entry>, pubkey: string, x: string)
    ensures Lists(Retain(list, true, pubkey), x) <==> Lists(list, x) && !EqIgnoreCase(pubkey, x)
  {
    ListedByKey(list, x);
    ListedByKey(Retain(list, true, pubkey), x);
    FindRetain(list, true, pubkey, Lower(x));
  }

  lemma PubkeyDecisions(t: IpText, s: AccessControl, op: AccessOp, pubkey: string)
    requires AnyCase(op)
    ensures Lists(ApplyOp(t, s, op).blockedPubkeys, pubkey) <==>
      Bans(op, pubkey) || (Lists(s.blockedPubkeys, pubkey) && !Unbans(op, pubkey))
    ensures Lists(ApplyOp(t, s, op).allowedPubkeys, pubkey) <==>
      Lets(op, pubkey) || (Lists(s.allowedPubkeys, pubkey) && !Unlets(op, pubkey))
  {
    if NamesPubkey(op) {
      ListsRetain(s.blockedPubkeys, op.pubkey, pubkey);
      ListsRetain(s.allowedPubkeys, op.pubkey, pubkey);
      if op.BanPubkey? || op.AllowPubkey? {
        ListsRegister(s.blockedPubkeys, true, op.pubkey, op.reason, pubkey);
        ListsRegister(s.allowedPubkeys, true, op.pubkey, op.reason, pubkey);
      }
    }
  }

  lemma KindDecisions(t: IpText, s: AccessControl, op: AccessOp, kind: nat)
    ensures kind in ApplyOp(t, s, op).blockedKinds <==>
      op == DenyKind(kind) || (kind in s.blockedKinds && op != UndenyKind(kind))
    ensures kind in ApplyOp(t, s, op).allowedKinds <==>
      op == AllowKind(kind) || (kind in s.allowedKinds && op != UnallowKind(kind) && op != DenyKind(kind))
  {
  }

  lemma AddressDecisions(t: IpText, s: AccessControl, op: AccessOp, ip: Ip)
    requires RoundTrips(t)
    ensures IsIpBlocked(ApplyOp(t, s, op), ip) <==> Blocks(op, ip) || (IsIpBlocked(s, ip) && !Unblocks(op, ip))
  {
    if op.BlockIp? || op.UnblockIp? {
      NormalizeExactly(op.ip, ip);
      NormalizeTwice(ip);
    }
  }

  lemma NormalizeTwice(ip: Ip)
    ensures Normalize(Normalize(ip)) == Normalize(ip)
  {
  }

  predicate LowerKeys(s: AccessControl) {
    forall k :: k in s.methodGrants ==> Lower(k) == k
  }

  lemma GrantDecisions(t: IpText, s: AccessControl, op: AccessOp, pubkey: string, rpc: string)
    requires LowerKeys(s)
    ensures LowerKeys(ApplyOp(t, s, op))
    ensures GrantsMethod(ApplyOp(t, s, op), pubkey, rpc) <==>
      Grants(op, pubkey, rpc) || (GrantsMethod(s, pubkey, rpc) && !Ungrants(op, pubkey, rpc))
  {
    LowerIdempotent(pubkey);
    GrantedAtLower(s, pubkey, rpc);
    if op.GrantMethod? || op.UngrantMethod? {
      GrantCells(s.methodGrants, op.pubkey, op.rpc, Lower(pubkey), rpc);
    }
    GrantedAtLower(ApplyOp(t, s, op), pubkey, rpc);
  }

  lemma GrantedAtLower(s: AccessControl, pubkey: string, rpc: string)
    requires LowerKeys(s)
    ensures GrantsMethod(s, pubkey, rpc) <==> Lower(pubkey) in s.methodGrants && rpc in s.methodGrants[Lower(pubkey)]
  {
    LowerIdempotent(pubkey);
  }

  // ----- what a whole journal makes of it -----

  /** Some operation sets it and no later one lifts it, or it was set before and no
      operation lifts it. */
  ghost predicate LastSays(log: seq<AccessOp>, sets: AccessOp -> bool, lifts: AccessOp -> bool, before: bool) {
    || (exists k :: 0 <= k < |log| && SetsFrom(log, sets, lifts, k))
    || (before && NoneLifts(log, lifts, 0))
  }

  ghost predicate NoneLifts(log: seq<AccessOp>, lifts: AccessOp -> bool, from: nat) {
    forall j :: from <= j < |log| ==> !lifts(log[j])
  }

  ghost predicate SetsFrom(log: seq<AccessOp>, sets: AccessOp -> bool, lifts: AccessOp -> bool, k: nat)
    requires k < |log|
  {
    sets(log[k]) && NoneLifts(log, lifts, k + 1)
  }

  lemma LastSaysSnoc(log: seq<AccessOp>, op: AccessOp, sets: AccessOp -> bool, lifts: AccessOp -> bool, before: bool)
    ensures LastSays(log + [op], sets, lifts, before) <==>
      sets(op) || (LastSays(log, sets, lifts, before) && !lifts(op))
  {
    var all := log + [op];
    assert forall j :: 0 <= j < |log| ==> all[j] == log[j];
    assert all[|log|] == op;
    forall from: nat | from <= |log|
      ensures NoneLifts(all, lifts, from) <==> NoneLifts(log, lifts, from) && !lifts(op)
    {
    }
    forall k | 0 <= k < |log| ensures SetsFrom(all, sets, lifts, k) <==> SetsFrom(log, sets, lifts, k) && !lifts(op) {
    }
    assert SetsFrom(all, sets, lifts, |log|) <==> sets(op);
  }

  /** A decision each operation sets, lifts or leaves. */
  ghost predicate Follows(
    t: IpText, s: AccessControl, op: AccessOp,
    d: AccessControl -> bool, sets: AccessOp -> bool, lifts: AccessOp -> bool)
  {
    d(ApplyOp(t, s, op)) <==> sets(op) || (d(s) && !lifts(op))
  }

  lemma ReplaySnoc(t: IpText, s: AccessControl, log: seq<AccessOp>, op: AccessOp)
    ensures Replay(t, s, log + [op]) == ApplyOp(t, Replay(t, s, log), op)
  {
    assert (log + [op])[..|log|] == log;
  }

  /** A decision before each operation and after the last one. */
  ghost predicate Course(log: seq<AccessOp>, sets: AccessOp -> bool, lifts: AccessOp -> bool, says: seq<bool>) {
    |says| == |log| + 1 && forall i :: 0 <= i < |log| ==> says[i + 1] == (sets(log[i]) || (says[i] && !lifts(log[i])))
  }

  lemma {:induction false} CourseEnds(
    log: seq<AccessOp>, sets: AccessOp -> bool, lifts: AccessOp -> bool, says: seq<bool>, n: nat)
    requires Course(log, sets, lifts, says) && n <= |log|
    ensures says[n] <==> LastSays(log[..n], sets, lifts, says[0])
  {
    if n > 0 {
      CourseEnds(log, sets, lifts, says, n - 1);
      LastSaysSnoc(log[..n - 1], log[n - 1], sets, lifts, says[0]);
      assert log[..n] == log[..n - 1] + [log[n - 1]];
    }
  }

  lemma JournalStep(
    t: IpText, s: AccessControl, log: seq<AccessOp>, i: nat,
    d: AccessControl -> bool, sets: AccessOp -> bool, lifts: AccessOp -> bool)
    requires i < |log| && Follows(t, Replay(t, s, log[..i]), log[i], d, sets, lifts)
    ensures d(Replay(t, s, log[..i + 1])) <==> sets(log[i]) || (d(Replay(t, s, log[..i])) && !lifts(log[i]))
  {
    assert log[..i + 1] == log[..i] + [log[i]];
    ReplaySnoc(t, s, log[..i], log[i]);
  }

  /** So a whole journal decides it. */
  lemma JournalDecides(
    t: IpText, s: AccessControl, log: seq<AccessOp>,
    d: AccessControl -> bool, sets: AccessOp -> bool, lifts: AccessOp -> bool)
    requires forall i :: 0 <= i < |log| ==> Follows(t, Replay(t, s, log[..i]), log[i], d, sets, lifts)
    ensures d(Replay(t, s, log)) <==> LastSays(log, sets, lifts, d(s))
  {
    var says := seq(|log| + 1, i requires 0 <= i <= |log| => d(Replay(t, s, log[..i])));
    forall i | 0 <= i < |log| ensures says[i + 1] == (sets(log[i]) || (says[i] && !lifts(log[i]))) {
      JournalStep(t, s, log, i, d, sets, lifts);
    }
    CourseEnds(log, sets, lifts, says, |log|);
    assert log[..|log|] == log && log[..0] == [];
  }

  ghost predicate AllAnyCase(log: seq<AccessOp>) {
    forall i :: 0 <= i < |log| ==> AnyCase(log[i])
  }

  /** After a journal that compares without case, a pubkey is on the deny list if
      and only if its last ban was not followed by an unban or an allow, or it was
      on it before and there is no such operation; and likewise on the allow list,
      where a ban takes it off. */
  lemma PubkeyJournal(t: IpText, s: AccessControl, log: seq<AccessOp>, pubkey: string)
    requires AllAnyCase(log)
    ensures Lists(Replay(t, s, log).blockedPubkeys, pubkey) <==>
      LastSays(log, op => Bans(op, pubkey), op => Unbans(op, pubkey), Lists(s.blockedPubkeys, pubkey))
    ensures Lists(Replay(t, s, log).allowedPubkeys, pubkey) <==>
      LastSays(log, op => Lets(op, pubkey), op => Unlets(op, pubkey), Lists(s.allowedPubkeys, pubkey))
  {
    var blocked := (x: AccessControl) => Lists(x.blockedPubkeys, pubkey);
    var allowed := (x: AccessControl) => Lists(x.allowedPubkeys, pubkey);
    forall i | 0 <= i < |log|
      ensures Follows(t, Replay(t, s, log[..i]), log[i], blocked, op => Bans(op, pubkey), op => Unbans(op, pubkey))
      ensures Follows(t, Replay(t, s, log[..i]), log[i], allowed, op => Lets(op, pubkey), op => Unlets(op, pubkey))
    {
      PubkeyDecisions(t, Replay(t, s, log[..i]), log[i], pubkey);
    }
    JournalDecides(t, s, log, blocked, op => Bans(op, pubkey), op => Unbans(op, pubkey));
    JournalDecides(t, s, log, allowed, op => Lets(op, pubkey), op => Unlets(op, pubkey));
  }

  /** Likewise for kinds, where a denied kind leaves the allow list. */
  lemma KindJournal(t: IpText, s: AccessControl, log: seq<AccessOp>, kind: nat)
    ensures kind in Replay(t, s, log).blockedKinds <==>
      LastSays(log, op => op == DenyKind(kind), op => op == UndenyKind(kind), kind in s.blockedKinds)
    ensures kind in Replay(t, s, log).allowedKinds <==>
      LastSays(log, op => op == AllowKind(kind), op => op == UnallowKind(kind) || op == DenyKind(kind),
               kind in s.allowedKinds)
  {
    var denied := (x: AccessControl) => kind in x.blockedKinds;
    var allowed := (x: AccessControl) => kind in x.allowedKinds;
    var deny, undeny := (op: AccessOp) => op == DenyKind(kind), (op: AccessOp) => op == UndenyKind(kind);
    var allow := (op: AccessOp) => op == AllowKind(kind);
    var unallow := (op: AccessOp) => op == UnallowKind(kind) || op == DenyKind(kind);
    forall i | 0 <= i < |log|
      ensures Follows(t, Replay(t, s, log[..i]), log[i], denied, deny, undeny)
      ensures Follows(t, Replay(t, s, log[..i]), log[i], allowed, allow, unallow)
    {
      KindDecisions(t, Replay(t, s, log[..i]), log[i], kind);
    }
    JournalDecides(t, s, log, denied, deny, undeny);
    JournalDecides(t, s, log, allowed, allow, unallow);
    SameSays(log, deny, undeny, kind in s.blockedKinds, op => op == DenyKind(kind), op => op == UndenyKind(kind));
    SameSays(log, allow, unallow, kind in s.allowedKinds, op => op == AllowKind(kind),
             op => op == UnallowKind(kind) || op == DenyKind(kind));
  }

  lemma SameSays(
    log: seq<AccessOp>, sets: AccessOp -> bool, lifts: AccessOp -> bool, before: bool,
    sets': AccessOp -> bool, lifts': AccessOp -> bool)
    requires forall op :: sets(op) == sets'(op) && lifts(op) == lifts'(op)
    ensures LastSays(log, sets, lifts, before) <==> LastSays(log, sets', lifts', before)
  {
    forall from: nat ensures NoneLifts(log, lifts, from) <==> NoneLifts(log, lifts', from) {
    }
    forall k | 0 <= k < |log| ensures SetsFrom(log, sets, lifts, k) <==> SetsFrom(log, sets', lifts', k) {
    }
  }

  /** For addresses in any spelling. */
  lemma AddressJournal(t: IpText, s: AccessControl, log: seq<AccessOp>, ip: Ip)
    requires RoundTrips(t)
    ensures IsIpBlocked(Replay(t, s, log), ip) <==>
      LastSays(log, op => Blocks(op, ip), op => Unblocks(op, ip), IsIpBlocked(s, ip))
  {
    var blocked := (x: AccessControl) => IsIpBlocked(x, ip);
    forall i | 0 <= i < |log|
      ensures Follows(t, Replay(t, s, log[..i]), log[i], blocked, op => Blocks(op, ip), op => Unblocks(op, ip))
    {
      AddressDecisions(t, Replay(t, s, log[..i]), log[i], ip);
    }
    JournalDecides(t, s, log, blocked, op => Blocks(op, ip), op => Unblocks(op, ip));
  }

  /** And for grants. */
  lemma GrantJournal(t: IpText, s: AccessControl, log: seq<AccessOp>, pubkey: string, rpc: string)
    requires LowerKeys(s)
    ensures GrantsMethod(Replay(t, s, log), pubkey, rpc) <==>
      LastSays(log, op => Grants(op, pubkey, rpc), op => Ungrants(op, pubkey, rpc), GrantsMethod(s, pubkey, rpc))
  {
    var granted := (x: AccessControl) => GrantsMethod(x, pubkey, rpc);
    forall i | 0 <= i < |log|
      ensures Follows(t, Replay(t, s, log[..i]), log[i], granted,
                      op => Grants(op, pubkey, rpc), op => Ungrants(op, pubkey, rpc))
    {
      ReplayKeepsLower(t, s, log[..i]);
      GrantDecisions(t, Replay(t, s, log[..i]), log[i], pubkey, rpc);
    }
    JournalDecides(t, s, log, granted, op => Grants(op, pubkey, rpc), op => Ungrants(op, pubkey, rpc));
  }

  lemma {:induction false} ReplayKeepsLower(t: IpText, s: AccessControl, log: seq<AccessOp>)
    requires LowerKeys(s)
    ensures LowerKeys(Replay(t, s, log))
    decreases |log|
  {
    if log != [] {
      ReplayKeepsLower(t, s, log[..|log| - 1]);
      GrantDecisions(t, Replay(t, s, log[..|log| - 1]), log[|log| - 1], "", "");
    }
  }
}
