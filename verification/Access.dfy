/** Access control and its op journal. The daemon appends mutations to a journal;
    a restart, a failed persist or the CLI replays them onto the persisted state. */
module Access {
  import opened Text

  // ----- addresses -----

  datatype Ip = V4(bits: nat) | V6(bits: nat)

  const MAPPED_V4: nat := 0xFFFF_0000_0000

  /** An IPv4-mapped IPv6 address is the IPv4 address it carries. */
  function Normalize(ip: Ip): Ip {
    match ip
    case V4(_) => ip
    case V6(bits) => if MAPPED_V4 <= bits < MAPPED_V4 + 0x1_0000_0000 then V4(bits - MAPPED_V4) else ip
  }

  /** How addresses are written: parsing what was printed gives it back. */
  datatype IpText = IpText(parse: string -> Option<Ip>, show: Ip -> string)

  ghost predicate RoundTrips(t: IpText) {
    forall ip :: t.parse(t.show(ip)) == Some(ip)
  }

  // ----- the state -----

  datatype Entry = Entry(name: string, reason: string)

  datatype AccessControl = AccessControl(
    blockedPubkeys: seq<Entry>,
    allowedPubkeys: seq<Entry>,
    blockedKinds: seq<nat>,
    allowedKinds: seq<nat>,
    blockedIps: seq<Entry>,
    parsedIps: set<Ip>,
    restrictRelay: bool,
    methodGrants: map<string, seq<string>>)

  const DEFAULT := AccessControl([], [], [], [], [], {}, false, map[])

  datatype AccessOp =
    | BanPubkey(pubkey: string, reason: string, insensitive: bool)
    | UnbanPubkey(pubkey: string, insensitive: bool)
    | AllowPubkey(pubkey: string, reason: string, insensitive: bool)
    | UnallowPubkey(pubkey: string, insensitive: bool)
    | DenyKind(kind: nat)
    | UndenyKind(kind: nat)
    | AllowKind(kind: nat)
    | UnallowKind(kind: nat)
    | BlockIp(ip: Ip, reason: string)
    | UnblockIp(ip: Ip)
    | GrantMethod(pubkey: string, rpc: string)
    | UngrantMethod(pubkey: string, rpc: string)

  // ----- pubkey lists -----

  function KeyOf(insensitive: bool, name: string): string {
    if insensitive then Lower(name) else name
  }

  function Retain(list: seq<Entry>, insensitive: bool, pubkey: string): seq<Entry> {
    if list == [] then []
    else
      var rest := Retain(list[1..], insensitive, pubkey);
      if KeyOf(insensitive, list[0].name) == KeyOf(insensitive, pubkey) then rest else [list[0]] + rest
  }

  /** Updates the reason of the first entry for the pubkey, or appends one. */
  function Register(list: seq<Entry>, insensitive: bool, pubkey: string, reason: string): seq<Entry> {
    if list == [] then [Entry(pubkey, reason)]
    else if KeyOf(insensitive, list[0].name) == KeyOf(insensitive, pubkey) then [list[0].(reason := reason)] + list[1..]
    else [list[0]] + Register(list[1..], insensitive, pubkey, reason)
  }

  /** The reason of the first entry with a key. */
  function Find(list: seq<Entry>, insensitive: bool, key: string): Option<string> {
    if list == [] then None
    else if KeyOf(insensitive, list[0].name) == key then Some(list[0].reason)
    else Find(list[1..], insensitive, key)
  }

  // ----- kinds -----

  function RetainKind(kinds: seq<nat>, kind: nat): (r: seq<nat>)
    ensures forall k :: k in r <==> k in kinds && k != kind
  {
    if kinds == [] then []
    else
      var rest := RetainKind(kinds[1..], kind);
      assert kinds == [kinds[0]] + kinds[1..];
      if kinds[0] == kind then rest else [kinds[0]] + rest
  }

  function AddKind(kinds: seq<nat>, kind: nat): seq<nat> {
    if kind in kinds then kinds else kinds + [kind]
  }

  // ----- blocked addresses -----

  function ParseEntry(t: IpText, e: Entry): Option<Ip> {
    var ip := t.parse(e.name);
    if ip.Some? then Some(Normalize(ip.value)) else None
  }

  function ParseEntries(t: IpText, entries: seq<Entry>): (r: set<Ip>)
    ensures forall ip :: ip in r <==> exists i :: 0 <= i < |entries| && ParseEntry(t, entries[i]) == Some(ip)
  {
    if entries == [] then {}
    else
      var rest := ParseEntries(t, entries[1..]);
      assert forall i :: 0 < i < |entries| ==> entries[i] == entries[1..][i - 1];
      assert forall i :: 0 <= i < |entries[1..]| ==> entries[1..][i] == entries[i + 1];
      if ParseEntry(t, entries[0]).Some? then rest + {ParseEntry(t, entries[0]).value} else rest
  }

  function FindIp(t: IpText, entries: seq<Entry>, ip: Ip): Option<string> {
    if entries == [] then None
    else if ParseEntry(t, entries[0]) == Some(ip) then Some(entries[0].reason)
    else FindIp(t, entries[1..], ip)
  }

  /** `set_reason`: the first entry for the address. */
  function SetReason(t: IpText, entries: seq<Entry>, ip: Ip, reason: string): seq<Entry> {
    if entries == [] then []
    else if ParseEntry(t, entries[0]) == Some(Normalize(ip)) then [entries[0].(reason := reason)] + entries[1..]
    else [entries[0]] + SetReason(t, entries[1..], ip, reason)
  }

  /** `remove`: every entry for the address, in any spelling. */
  function RetainIp(t: IpText, entries: seq<Entry>, ip: Ip): seq<Entry> {
    if entries == [] then []
    else
      var rest := RetainIp(t, entries[1..], ip);
      if ParseEntry(t, entries[0]) == Some(ip) then rest else [entries[0]] + rest
  }

  function PushIp(t: IpText, s: AccessControl, entry: string, reason: string): AccessControl {
    var ip := t.parse(entry);
    if ip.None? || Normalize(ip.value) in s.parsedIps then s
    else s.(blockedIps := s.blockedIps + [Entry(entry, reason)], parsedIps := s.parsedIps + {Normalize(ip.value)})
  }

  predicate IsIpBlocked(s: AccessControl, peer: Ip) {
    Normalize(peer) in s.parsedIps
  }

  // ----- grants -----

  function RetainMethod(methods: seq<string>, name: string): (r: seq<string>)
    ensures forall m :: m in r <==> m in methods && m != name
  {
    if methods == [] then []
    else
      var rest := RetainMethod(methods[1..], name);
      assert methods == [methods[0]] + methods[1..];
      if methods[0] == name then rest else [methods[0]] + rest
  }

  /** The first key of the sorted map that is the pubkey in any case. */
  function FirstKey(grants: map<string, seq<string>>, pubkey: string): (r: Option<string>)
    ensures r.Some? ==> r.value in grants && EqIgnoreCase(r.value, pubkey)
    ensures r.None? ==> forall k :: k in grants ==> !EqIgnoreCase(k, pubkey)
  {
    var matching := set k | k in grants && EqIgnoreCase(k, pubkey);
    if matching == {} then
      assert forall k :: k in grants && EqIgnoreCase(k, pubkey) ==> k in matching;
      None
    else
      HasOneLeast(matching);
      var k :| k in matching && LeastValue(matching, k);
      Some(k)
  }

  lemma HasOneLeast(values: set<string>)
    requires values != {}
    ensures exists v :: v in values && LeastValue(values, v)
    ensures forall v, x :: LeastValue(values, v) && LeastValue(values, x) ==> v == x
  {
    var v := LeastExists(values);
    forall v, x | LeastValue(values, v) && LeastValue(values, x) ensures v == x {
      LeastUnique(values, v, x);
    }
  }

  /** Only the first matching entry loses the method; every entry left without
      methods goes. */
  function Ungrant(grants: map<string, seq<string>>, pubkey: string, name: string): map<string, seq<string>> {
    var key := FirstKey(grants, pubkey);
    var updated := if key.Some? then grants[key.value := RetainMethod(grants[key.value], name)] else grants;
    map k | k in updated && updated[k] != [] :: updated[k]
  }

  function Grant(grants: map<string, seq<string>>, pubkey: string, name: string): map<string, seq<string>> {
    var key := Lower(pubkey);
    var methods := if key in grants then grants[key] else [];
    grants[key := if name in methods then methods else methods + [name]]
  }

  // ----- one op -----

  function ApplyOp(t: IpText, s: AccessControl, op: AccessOp): AccessControl {
    match op
    case BanPubkey(pubkey, reason, insensitive) =>
      s.(allowedPubkeys := Retain(s.allowedPubkeys, insensitive, pubkey),
         blockedPubkeys := Register(s.blockedPubkeys, insensitive, pubkey, reason))
    case UnbanPubkey(pubkey, insensitive) =>
      s.(blockedPubkeys := Retain(s.blockedPubkeys, insensitive, pubkey))
    case AllowPubkey(pubkey, reason, insensitive) =>
      s.(blockedPubkeys := Retain(s.blockedPubkeys, insensitive, pubkey),
         allowedPubkeys := Register(s.allowedPubkeys, insensitive, pubkey, reason))
    case UnallowPubkey(pubkey, insensitive) =>
      s.(allowedPubkeys := Retain(s.allowedPubkeys, insensitive, pubkey))
    case DenyKind(kind) =>
      s.(blockedKinds := AddKind(s.blockedKinds, kind), allowedKinds := RetainKind(s.allowedKinds, kind))
    case UndenyKind(kind) => s.(blockedKinds := RetainKind(s.blockedKinds, kind))
    case AllowKind(kind) => s.(allowedKinds := AddKind(s.allowedKinds, kind))
    case UnallowKind(kind) => s.(allowedKinds := RetainKind(s.allowedKinds, kind))
    case BlockIp(ip, reason) =>
      if IsIpBlocked(s, ip) then s.(blockedIps := SetReason(t, s.blockedIps, ip, reason))
      else PushIp(t, s, t.show(ip), reason)
    case UnblockIp(ip) =>
      s.(blockedIps := RetainIp(t, s.blockedIps, ip), parsedIps := s.parsedIps - {ip})
    case GrantMethod(pubkey, name) => s.(methodGrants := Grant(s.methodGrants, pubkey, name))
    case UngrantMethod(pubkey, name) => s.(methodGrants := Ungrant(s.methodGrants, pubkey, name))
  }

  function Replay(t: IpText, s: AccessControl, log: seq<AccessOp>): AccessControl
    decreases |log|
  {
    if log == [] then s else ApplyOp(t, Replay(t, s, log[..|log| - 1]), log[|log| - 1])
  }

  // ----- decisions -----

  predicate Lists(list: seq<Entry>, pubkey: string) {
    exists i :: 0 <= i < |list| && EqIgnoreCase(list[i].name, pubkey)
  }

  predicate BlocksPubkey(s: AccessControl, pubkey: string) {
    Lists(s.blockedPubkeys, pubkey)
  }

  predicate AllowsPubkey(s: AccessControl, pubkey: string) {
    !BlocksPubkey(s, pubkey) && (!s.restrictRelay || Lists(s.allowedPubkeys, pubkey))
  }

  predicate AllowsKind(s: AccessControl, kind: nat) {
    kind !in s.blockedKinds && (s.allowedKinds == [] || kind in s.allowedKinds)
  }

  predicate GrantsMethod(s: AccessControl, pubkey: string, name: string) {
    exists k :: k in s.methodGrants && EqIgnoreCase(k, pubkey) && name in s.methodGrants[k]
  }

  ghost predicate DecideAlike(a: AccessControl, b: AccessControl) {
    && (forall pk :: BlocksPubkey(a, pk) == BlocksPubkey(b, pk) && AllowsPubkey(a, pk) == AllowsPubkey(b, pk))
    && (forall k :: AllowsKind(a, k) == AllowsKind(b, k))
    && (forall pk, m :: GrantsMethod(a, pk, m) == GrantsMethod(b, pk, m))
    && (forall ip :: IsIpBlocked(a, ip) == IsIpBlocked(b, ip))
  }

  // ----- the state as cells, the journal as writes -----

  /** What the lists say about one key. `mode` is how pubkeys are compared. */
  datatype Cell =
    | Denied(key: string)
    | Allowed(key: string)
    | DeniedKind(kind: nat)
    | AllowedKind(kind: nat)
    | Blocked(ip: Ip)
    | Granted(key: string, rpc: string)

  function Present(b: bool): Option<string> { if b then Some("") else None }

  function Read(t: IpText, mode: bool, s: AccessControl, cell: Cell): Option<string> {
    match cell
    case Denied(key) => Find(s.blockedPubkeys, mode, key)
    case Allowed(key) => Find(s.allowedPubkeys, mode, key)
    case DeniedKind(kind) => Present(kind in s.blockedKinds)
    case AllowedKind(kind) => Present(kind in s.allowedKinds)
    case Blocked(ip) => FindIp(t, s.blockedIps, ip)
    case Granted(key, name) => Present(key in s.methodGrants && name in s.methodGrants[key])
  }

  /** What an op writes to a cell: nothing, a removal, or a value. */
  function Write(mode: bool, op: AccessOp, cell: Cell): Option<Option<string>> {
    match op
    case BanPubkey(pubkey, reason, _) =>
      if cell == Denied(KeyOf(mode, pubkey)) then Some(Some(reason))
      else if cell == Allowed(KeyOf(mode, pubkey)) then Some(None) else None
    case UnbanPubkey(pubkey, _) => if cell == Denied(KeyOf(mode, pubkey)) then Some(None) else None
    case AllowPubkey(pubkey, reason, _) =>
      if cell == Allowed(KeyOf(mode, pubkey)) then Some(Some(reason))
      else if cell == Denied(KeyOf(mode, pubkey)) then Some(None) else None
    case UnallowPubkey(pubkey, _) => if cell == Allowed(KeyOf(mode, pubkey)) then Some(None) else None
    case DenyKind(kind) =>
      if cell == DeniedKind(kind) then Some(Some("")) else if cell == AllowedKind(kind) then Some(None) else None
    case UndenyKind(kind) => if cell == DeniedKind(kind) then Some(None) else None
    case AllowKind(kind) => if cell == AllowedKind(kind) then Some(Some("")) else None
    case UnallowKind(kind) => if cell == AllowedKind(kind) then Some(None) else None
    case BlockIp(ip, reason) => if cell == Blocked(Normalize(ip)) then Some(Some(reason)) else None
    case UnblockIp(ip) => if cell == Blocked(ip) then Some(None) else None
    case GrantMethod(pubkey, name) => if cell == Granted(Lower(pubkey), name) then Some(Some("")) else None
    case UngrantMethod(pubkey, name) => if cell == Granted(Lower(pubkey), name) then Some(None) else None
  }

  function LastWrite(mode: bool, log: seq<AccessOp>, cell: Cell): Option<Option<string>>
    decreases |log|
  {
    if log == [] then None
    else
      var w := Write(mode, log[|log| - 1], cell);
      if w.Some? then w else LastWrite(mode, log[..|log| - 1], cell)
  }

  /** An op that compares pubkeys one way and names addresses normalised. */
  predicate Plain(mode: bool, op: AccessOp) {
    match op
    case BanPubkey(_, _, insensitive) => insensitive == mode
    case UnbanPubkey(_, insensitive) => insensitive == mode
    case AllowPubkey(_, _, insensitive) => insensitive == mode
    case UnallowPubkey(_, insensitive) => insensitive == mode
    case UnblockIp(ip) => Normalize(ip) == ip
    case _ => true
  }

  ghost predicate AllPlain(mode: bool, log: seq<AccessOp>) {
    forall i :: 0 <= i < |log| ==> Plain(mode, log[i])
  }

  /** The lookup set agrees with its list. */
  ghost predicate IpsOk(t: IpText, s: AccessControl) {
    s.parsedIps == ParseEntries(t, s.blockedIps)
  }

  ghost predicate StateOk(t: IpText, s: AccessControl) {
    IpsOk(t, s) && forall k :: k in s.methodGrants ==> Lower(k) == k
  }

  // ----- list lemmas -----

  lemma {:induction false} FindRetain(list: seq<Entry>, insensitive: bool, pubkey: string, key: string)
    ensures Find(Retain(list, insensitive, pubkey), insensitive, key) ==
      if key == KeyOf(insensitive, pubkey) then None else Find(list, insensitive, key)
    decreases |list|
  {
    if list != [] {
      FindRetain(list[1..], insensitive, pubkey, key);
      var rest := Retain(list[1..], insensitive, pubkey);
      assert ([list[0]] + rest)[1..] == rest;
    }
  }

  lemma {:induction false} FindRegister(
    list: seq<Entry>, insensitive: bool, pubkey: string, reason: string, key: string)
    ensures Find(Register(list, insensitive, pubkey, reason), insensitive, key) ==
      if key == KeyOf(insensitive, pubkey) then Some(reason) else Find(list, insensitive, key)
    decreases |list|
  {
    if list != [] {
      FindRegister(list[1..], insensitive, pubkey, reason, key);
      var rest := Register(list[1..], insensitive, pubkey, reason);
      assert ([list[0]] + rest)[1..] == rest;
      assert ([list[0].(reason := reason)] + list[1..])[1..] == list[1..];
    }
  }

  lemma {:induction false} FindIpSetReason(t: IpText, entries: seq<Entry>, ip: Ip, reason: string, x: Ip)
    ensures FindIp(t, SetReason(t, entries, ip, reason), x) ==
      if x == Normalize(ip) && FindIp(t, entries, x).Some? then Some(reason) else FindIp(t, entries, x)
    ensures ParseEntries(t, SetReason(t, entries, ip, reason)) == ParseEntries(t, entries)
    decreases |entries|
  {
    if entries != [] {
      FindIpSetReason(t, entries[1..], ip, reason, x);
      var rest := SetReason(t, entries[1..], ip, reason);
      assert ([entries[0]] + rest)[1..] == rest;
      assert ([entries[0].(reason := reason)] + entries[1..])[1..] == entries[1..];
    }
  }

  lemma {:induction false} FindIpRetain(t: IpText, entries: seq<Entry>, ip: Ip, x: Ip)
    ensures FindIp(t, RetainIp(t, entries, ip), x) == if x == ip then None else FindIp(t, entries, x)
    ensures ParseEntries(t, RetainIp(t, entries, ip)) == ParseEntries(t, entries) - {ip}
    decreases |entries|
  {
    if entries != [] {
      FindIpRetain(t, entries[1..], ip, x);
      var rest := RetainIp(t, entries[1..], ip);
      assert ([entries[0]] + rest)[1..] == rest;
    }
  }

  lemma {:induction false} FindIpPush(t: IpText, entries: seq<Entry>, e: Entry, x: Ip)
    ensures FindIp(t, entries + [e], x) ==
      if FindIp(t, entries, x).Some? then FindIp(t, entries, x)
      else if ParseEntry(t, e) == Some(x) then Some(e.reason) else None
    ensures ParseEntries(t, entries + [e]) ==
      ParseEntries(t, entries) + if ParseEntry(t, e).Some? then {ParseEntry(t, e).value} else {}
    decreases |entries|
  {
    if entries == [] {
      assert [e][1..] == [] && [] + [e] == [e];
    } else {
      FindIpPush(t, entries[1..], e, x);
      assert (entries + [e])[1..] == entries[1..] + [e];
    }
  }

  lemma {:induction false} FindIpParsed(t: IpText, entries: seq<Entry>, ip: Ip)
    ensures FindIp(t, entries, ip).Some? <==> ip in ParseEntries(t, entries)
    decreases |entries|
  {
    if entries != [] {
      FindIpParsed(t, entries[1..], ip);
    }
  }

  lemma GrantCells(grants: map<string, seq<string>>, pubkey: string, name: string, key: string, m: string)
    requires forall k :: k in grants ==> Lower(k) == k
    ensures
      var after := Grant(grants, pubkey, name);
      (key in after && m in after[key]) <==> (key == Lower(pubkey) && m == name) || (key in grants && m in grants[key])
    ensures
      var after := Ungrant(grants, pubkey, name);
      (key in after && m in after[key]) <==> !(key == Lower(pubkey) && m == name) && key in grants && m in grants[key]
    ensures forall k :: k in Grant(grants, pubkey, name) ==> Lower(k) == k
    ensures forall k :: k in Ungrant(grants, pubkey, name) ==> Lower(k) == k
  {
    LowerIdempotent(pubkey);
    var first := FirstKey(grants, pubkey);
    assert first.Some? ==> first.value == Lower(pubkey);
    assert first.None? ==> Lower(pubkey) !in grants;
  }

  // ----- one op is one set of writes -----

  predicate NamesPubkey(op: AccessOp) {
    op.BanPubkey? || op.UnbanPubkey? || op.AllowPubkey? || op.UnallowPubkey?
  }

  lemma PubkeyOpWrites(t: IpText, mode: bool, s: AccessControl, op: AccessOp, cell: Cell)
    requires Plain(mode, op) && NamesPubkey(op)
    ensures
      var w := Write(mode, op, cell);
      Read(t, mode, ApplyOp(t, s, op), cell) == if w.Some? then w.value else Read(t, mode, s, cell)
  {
    if cell.Denied? {
      FindRetain(s.blockedPubkeys, mode, op.pubkey, cell.key);
      if op.BanPubkey? {
        FindRegister(s.blockedPubkeys, mode, op.pubkey, op.reason, cell.key);
      }
    }
    if cell.Allowed? {
      FindRetain(s.allowedPubkeys, mode, op.pubkey, cell.key);
      if op.AllowPubkey? {
        FindRegister(s.allowedPubkeys, mode, op.pubkey, op.reason, cell.key);
      }
    }
  }

  lemma KindOpWrites(t: IpText, mode: bool, s: AccessControl, op: AccessOp, cell: Cell)
    requires op.DenyKind? || op.UndenyKind? || op.AllowKind? || op.UnallowKind?
    ensures
      var w := Write(mode, op, cell);
      Read(t, mode, ApplyOp(t, s, op), cell) == if w.Some? then w.value else Read(t, mode, s, cell)
  {
  }

  lemma IpOpWrites(t: IpText, mode: bool, s: AccessControl, op: AccessOp, cell: Cell)
    requires RoundTrips(t) && IpsOk(t, s) && (op.BlockIp? || (op.UnblockIp? && Normalize(op.ip) == op.ip))
    ensures
      var w := Write(mode, op, cell);
      Read(t, mode, ApplyOp(t, s, op), cell) == if w.Some? then w.value else Read(t, mode, s, cell)
  {
    if op.BlockIp? {
      BlockOpWrites(t, mode, s, op, cell);
    } else {
      UnblockOpWrites(t, mode, s, op, cell);
    }
  }

  lemma BlockOpWrites(t: IpText, mode: bool, s: AccessControl, op: AccessOp, cell: Cell)
    requires RoundTrips(t) && IpsOk(t, s) && op.BlockIp?
    ensures
      var w := Write(mode, op, cell);
      Read(t, mode, ApplyOp(t, s, op), cell) == if w.Some? then w.value else Read(t, mode, s, cell)
  {
    if cell.Blocked? {
      BlockWrites(t, s, op.ip, op.reason, cell.ip);
    }
  }

  lemma UnblockOpWrites(t: IpText, mode: bool, s: AccessControl, op: AccessOp, cell: Cell)
    requires op.UnblockIp? && Normalize(op.ip) == op.ip
    ensures
      var w := Write(mode, op, cell);
      Read(t, mode, ApplyOp(t, s, op), cell) == if w.Some? then w.value else Read(t, mode, s, cell)
  {
    if cell.Blocked? {
      FindIpRetain(t, s.blockedIps, op.ip, cell.ip);
    }
  }

  lemma GrantOpWrites(t: IpText, mode: bool, s: AccessControl, op: AccessOp, cell: Cell)
    requires StateOk(t, s) && (op.GrantMethod? || op.UngrantMethod?)
    ensures
      var w := Write(mode, op, cell);
      Read(t, mode, ApplyOp(t, s, op), cell) == if w.Some? then w.value else Read(t, mode, s, cell)
  {
    if cell.Granted? {
      GrantCells(s.methodGrants, op.pubkey, op.rpc, cell.key, cell.rpc);
    }
  }

  lemma OtherOpWrites(t: IpText, mode: bool, s: AccessControl, op: AccessOp, cell: Cell)
    requires RoundTrips(t) && StateOk(t, s) && Plain(mode, op) && !NamesPubkey(op)
    ensures
      var w := Write(mode, op, cell);
      Read(t, mode, ApplyOp(t, s, op), cell) == if w.Some? then w.value else Read(t, mode, s, cell)
  {
    if op.GrantMethod? || op.UngrantMethod? {
      GrantOpWrites(t, mode, s, op, cell);
    } else if op.BlockIp? || op.UnblockIp? {
      IpOpWrites(t, mode, s, op, cell);
    } else {
      KindOpWrites(t, mode, s, op, cell);
    }
  }

  /** An op changes exactly the cells it writes, to exactly what it writes. */
  lemma ApplyWrites(t: IpText, mode: bool, s: AccessControl, op: AccessOp, cell: Cell)
    requires RoundTrips(t) && StateOk(t, s) && Plain(mode, op)
    ensures
      var w := Write(mode, op, cell);
      Read(t, mode, ApplyOp(t, s, op), cell) == if w.Some? then w.value else Read(t, mode, s, cell)
  {
    if NamesPubkey(op) {
      PubkeyOpWrites(t, mode, s, op, cell);
    } else {
      OtherOpWrites(t, mode, s, op, cell);
    }
  }

  lemma BlockWrites(t: IpText, s: AccessControl, ip: Ip, reason: string, x: Ip)
    requires t.parse(t.show(ip)) == Some(ip) && IpsOk(t, s)
    ensures FindIp(t, ApplyOp(t, s, BlockIp(ip, reason)).blockedIps, x) ==
      if x == Normalize(ip) then Some(reason) else FindIp(t, s.blockedIps, x)
  {
    FindIpParsed(t, s.blockedIps, Normalize(ip));
    if IsIpBlocked(s, ip) {
      FindIpSetReason(t, s.blockedIps, ip, reason, x);
    } else {
      FindIpPush(t, s.blockedIps, Entry(t.show(ip), reason), x);
    }
  }

  /** Every op, plain or not, keeps the lookup set in step with its list. */
  lemma ApplyKeepsIps(t: IpText, s: AccessControl, op: AccessOp)
    requires IpsOk(t, s)
    ensures IpsOk(t, ApplyOp(t, s, op))
  {
    if op.BlockIp? {
      if IsIpBlocked(s, op.ip) {
        FindIpSetReason(t, s.blockedIps, op.ip, op.reason, op.ip);
      } else {
        FindIpPush(t, s.blockedIps, Entry(t.show(op.ip), op.reason), op.ip);
      }
    } else if op.UnblockIp? {
      FindIpRetain(t, s.blockedIps, op.ip, op.ip);
    }
  }

  lemma ApplyKeepsOk(t: IpText, s: AccessControl, op: AccessOp)
    requires StateOk(t, s)
    ensures StateOk(t, ApplyOp(t, s, op)) && ApplyOp(t, s, op).restrictRelay == s.restrictRelay
  {
    ApplyKeepsIps(t, s, op);
    if op.GrantMethod? || op.UngrantMethod? {
      GrantCells(s.methodGrants, op.pubkey, op.rpc, "", "");
    }
  }

  // ----- the journal -----

  lemma {:induction false} ReplayKeepsOk(t: IpText, s: AccessControl, log: seq<AccessOp>)
    requires StateOk(t, s)
    ensures StateOk(t, Replay(t, s, log))
    ensures Replay(t, s, log).restrictRelay == s.restrictRelay
    decreases |log|
  {
    if log != [] {
      var before, op := Replay(t, s, log[..|log| - 1]), log[|log| - 1];
      ReplayKeepsOk(t, s, log[..|log| - 1]);
      ApplyKeepsOk(t, before, op);
      assert Replay(t, s, log) == ApplyOp(t, before, op);
    }
  }

  /** Journal merge: after a replay every cell holds the journal's last write to
      it, and what was persisted where the journal writes nothing. */
  lemma {:induction false} JournalMerge(t: IpText, mode: bool, s: AccessControl, log: seq<AccessOp>, cell: Cell)
    requires RoundTrips(t) && StateOk(t, s) && AllPlain(mode, log)
    ensures
      var w := LastWrite(mode, log, cell);
      Read(t, mode, Replay(t, s, log), cell) == if w.Some? then w.value else Read(t, mode, s, cell)
    decreases |log|
  {
    if log != [] {
      var prefix := log[..|log| - 1];
      JournalMerge(t, mode, s, prefix, cell);
      ReplayKeepsOk(t, s, prefix);
      ApplyWrites(t, mode, Replay(t, s, prefix), log[|log| - 1], cell);
    }
  }

  ghost predicate SameCells(t: IpText, mode: bool, a: AccessControl, b: AccessControl) {
    forall cell :: Read(t, mode, a, cell) == Read(t, mode, b, cell)
  }

  lemma {:induction false} PrefixWrites(mode: bool, log: seq<AccessOp>, n: nat, cell: Cell)
    requires n <= |log| && LastWrite(mode, log[..n], cell).Some?
    ensures LastWrite(mode, log, cell).Some?
    decreases |log|
  {
    if n < |log| {
      assert log[..|log| - 1][..n] == log[..n];
      PrefixWrites(mode, log[..|log| - 1], n, cell);
    } else {
      assert log[..n] == log;
    }
  }

  /** Replaying the whole journal over a state that already has a prefix of it
      (a failed persist, a reload, or the whole journal twice) changes nothing. */
  lemma ReplayIsIdempotent(t: IpText, mode: bool, s: AccessControl, log: seq<AccessOp>, n: nat)
    requires RoundTrips(t) && StateOk(t, s) && AllPlain(mode, log) && n <= |log|
    ensures SameCells(t, mode, Replay(t, Replay(t, s, log[..n]), log), Replay(t, s, log))
    ensures DecideAlike(Replay(t, Replay(t, s, log[..n]), log), Replay(t, s, log))
  {
    var base := Replay(t, s, log[..n]);
    ReplayKeepsOk(t, s, log[..n]);
    ReplayKeepsOk(t, base, log);
    ReplayKeepsOk(t, s, log);
    forall cell ensures Read(t, mode, Replay(t, base, log), cell) == Read(t, mode, Replay(t, s, log), cell) {
      JournalMerge(t, mode, s, log[..n], cell);
      JournalMerge(t, mode, base, log, cell);
      JournalMerge(t, mode, s, log, cell);
      if LastWrite(mode, log[..n], cell).Some? {
        PrefixWrites(mode, log, n, cell);
      }
    }
    CellsDecide(t, mode, Replay(t, base, log), Replay(t, s, log));
  }

  // ----- decisions depend on the cells alone -----

  lemma {:induction false} ListsByFind(list: seq<Entry>, mode: bool, pubkey: string)
    ensures Lists(list, pubkey) <==> exists key :: Lower(key) == Lower(pubkey) && Find(list, mode, key).Some?
    decreases |list|
  {
    if list != [] {
      ListsByFind(list[1..], mode, pubkey);
      assert Lists(list, pubkey) <==> EqIgnoreCase(list[0].name, pubkey) || Lists(list[1..], pubkey) by {
        assert forall i :: 0 <= i < |list[1..]| ==> list[1..][i] == list[i + 1];
        assert forall i :: 0 < i < |list| ==> list[i] == list[1..][i - 1];
      }
      LowerIdempotent(list[0].name);
      if EqIgnoreCase(list[0].name, pubkey) {
        assert Find(list, mode, KeyOf(mode, list[0].name)).Some?;
      }
      if key :| Lower(key) == Lower(pubkey) && Find(list[1..], mode, key).Some? {
        assert Find(list, mode, key).Some?;
      }
      if key :| Lower(key) == Lower(pubkey) && Find(list, mode, key).Some? {
        assert KeyOf(mode, list[0].name) == key || Find(list[1..], mode, key).Some?;
      }
    }
  }

  lemma SameLists(a: seq<Entry>, b: seq<Entry>, mode: bool, pubkey: string)
    requires forall key :: Find(a, mode, key) == Find(b, mode, key)
    ensures Lists(a, pubkey) == Lists(b, pubkey)
  {
    ListsByFind(a, mode, pubkey);
    ListsByFind(b, mode, pubkey);
  }

  lemma SameKinds(t: IpText, mode: bool, a: AccessControl, b: AccessControl, kind: nat)
    requires SameCells(t, mode, a, b)
    ensures AllowsKind(a, kind) == AllowsKind(b, kind)
  {
    KindCells(t, mode, a, b, kind);
    if a.allowedKinds != [] {
      KindCells(t, mode, a, b, a.allowedKinds[0]);
    }
    if b.allowedKinds != [] {
      KindCells(t, mode, a, b, b.allowedKinds[0]);
    }
  }

  lemma KindCells(t: IpText, mode: bool, a: AccessControl, b: AccessControl, kind: nat)
    requires SameCells(t, mode, a, b)
    ensures kind in a.blockedKinds <==> kind in b.blockedKinds
    ensures kind in a.allowedKinds <==> kind in b.allowedKinds
  {
    assert Read(t, mode, a, DeniedKind(kind)) == Read(t, mode, b, DeniedKind(kind));
    assert Read(t, mode, a, AllowedKind(kind)) == Read(t, mode, b, AllowedKind(kind));
  }

  lemma GrantByCell(t: IpText, mode: bool, s: AccessControl, pubkey: string, name: string)
    requires StateOk(t, s)
    ensures GrantsMethod(s, pubkey, name) <==> Read(t, mode, s, Granted(Lower(pubkey), name)).Some?
  {
    LowerIdempotent(pubkey);
  }

  /** States with the same cells take the same decisions. */
  lemma CellsDecide(t: IpText, mode: bool, a: AccessControl, b: AccessControl)
    requires StateOk(t, a) && StateOk(t, b) && a.restrictRelay == b.restrictRelay
    requires SameCells(t, mode, a, b)
    ensures DecideAlike(a, b)
  {
    forall key ensures Find(a.blockedPubkeys, mode, key) == Find(b.blockedPubkeys, mode, key)
      && Find(a.allowedPubkeys, mode, key) == Find(b.allowedPubkeys, mode, key)
    {
      assert Read(t, mode, a, Denied(key)) == Read(t, mode, b, Denied(key));
      assert Read(t, mode, a, Allowed(key)) == Read(t, mode, b, Allowed(key));
    }
    forall pk ensures BlocksPubkey(a, pk) == BlocksPubkey(b, pk) && AllowsPubkey(a, pk) == AllowsPubkey(b, pk) {
      SameLists(a.blockedPubkeys, b.blockedPubkeys, mode, pk);
      SameLists(a.allowedPubkeys, b.allowedPubkeys, mode, pk);
    }
    forall k ensures AllowsKind(a, k) == AllowsKind(b, k) {
      SameKinds(t, mode, a, b, k);
    }
    forall pk, m ensures GrantsMethod(a, pk, m) == GrantsMethod(b, pk, m) {
      GrantByCell(t, mode, a, pk, m);
      GrantByCell(t, mode, b, pk, m);
    }
    forall ip ensures IsIpBlocked(a, ip) == IsIpBlocked(b, ip) {
      FindIpParsed(t, a.blockedIps, Normalize(ip));
      FindIpParsed(t, b.blockedIps, Normalize(ip));
      assert Read(t, mode, a, Blocked(Normalize(ip))) == Read(t, mode, b, Blocked(Normalize(ip)));
    }
  }

  // ----- no pubkey on both lists -----

  ghost predicate Disjoint(s: AccessControl) {
    forall pk :: !(Lists(s.blockedPubkeys, pk) && Lists(s.allowedPubkeys, pk))
  }

  lemma ListedByKey(list: seq<Entry>, pubkey: string)
    ensures Lists(list, pubkey) <==> Find(list, true, Lower(pubkey)).Some?
  {
    LowerIdempotent(pubkey);
    ListsByFind(list, true, pubkey);
    KeysAreLower(list, Lower(pubkey));
    if key :| Lower(key) == Lower(pubkey) && Find(list, true, key).Some? {
      KeysAreLower(list, key);
    }
  }

  lemma {:induction false} KeysAreLower(list: seq<Entry>, key: string)
    ensures Find(list, true, key).Some? ==> Lower(key) == key
    decreases |list|
  {
    if list != [] {
      LowerIdempotent(list[0].name);
      KeysAreLower(list[1..], key);
    }
  }

  /** No key is on both lists, as the mode compares them. */
  ghost predicate DisjointBy(mode: bool, s: AccessControl) {
    forall key :: !(Find(s.blockedPubkeys, mode, key).Some? && Find(s.allowedPubkeys, mode, key).Some?)
  }

  lemma OpMovesKey(t: IpText, mode: bool, s: AccessControl, op: AccessOp, key: string)
    requires Plain(mode, op)
    requires !(Find(s.blockedPubkeys, mode, key).Some? && Find(s.allowedPubkeys, mode, key).Some?)
    ensures
      var after := ApplyOp(t, s, op);
      !(Find(after.blockedPubkeys, mode, key).Some? && Find(after.allowedPubkeys, mode, key).Some?)
  {
    match op
    case BanPubkey(pubkey, reason, _) =>
      FindRegister(s.blockedPubkeys, mode, pubkey, reason, key);
      FindRetain(s.allowedPubkeys, mode, pubkey, key);
    case UnbanPubkey(pubkey, _) => FindRetain(s.blockedPubkeys, mode, pubkey, key);
    case AllowPubkey(pubkey, reason, _) =>
      FindRegister(s.allowedPubkeys, mode, pubkey, reason, key);
      FindRetain(s.blockedPubkeys, mode, pubkey, key);
    case UnallowPubkey(pubkey, _) => FindRetain(s.allowedPubkeys, mode, pubkey, key);
    case _ =>
  }

  /** A journal of either kind puts no key on both lists, as that kind compares
      keys. */
  lemma {:induction false} KeysStayDisjoint(t: IpText, mode: bool, s: AccessControl, log: seq<AccessOp>)
    requires AllPlain(mode, log) && DisjointBy(mode, s)
    ensures DisjointBy(mode, Replay(t, s, log))
    decreases |log|
  {
    if log != [] {
      var before, op := Replay(t, s, log[..|log| - 1]), log[|log| - 1];
      KeysStayDisjoint(t, mode, s, log[..|log| - 1]);
      var after := ApplyOp(t, before, op);
      forall key ensures !(Find(after.blockedPubkeys, mode, key).Some? && Find(after.allowedPubkeys, mode, key).Some?) {
        assert !(Find(before.blockedPubkeys, mode, key).Some? && Find(before.allowedPubkeys, mode, key).Some?);
        OpMovesKey(t, mode, before, op, key);
      }
    }
  }

  lemma DisjointByKeys(s: AccessControl)
    ensures Disjoint(s) <==> DisjointBy(true, s)
  {
    if Disjoint(s) {
      forall key ensures !(Find(s.blockedPubkeys, true, key).Some? && Find(s.allowedPubkeys, true, key).Some?) {
        KeysAreLower(s.blockedPubkeys, key);
        ListedByKey(s.blockedPubkeys, key);
        ListedByKey(s.allowedPubkeys, key);
        assert !(Lists(s.blockedPubkeys, key) && Lists(s.allowedPubkeys, key));
      }
    }
    if DisjointBy(true, s) {
      forall pk ensures !(Lists(s.blockedPubkeys, pk) && Lists(s.allowedPubkeys, pk)) {
        ListedByKey(s.blockedPubkeys, pk);
        ListedByKey(s.allowedPubkeys, pk);
        assert !(Find(s.blockedPubkeys, true, Lower(pk)).Some? && Find(s.allowedPubkeys, true, Lower(pk)).Some?);
      }
    }
  }

  /** A case-insensitive journal never puts a pubkey on both lists for the
      decisions, which compare without case. */
  lemma ListsStayDisjoint(t: IpText, s: AccessControl, log: seq<AccessOp>)
    requires AllPlain(true, log) && Disjoint(s)
    ensures Disjoint(Replay(t, s, log))
  {
    DisjointByKeys(s);
    KeysStayDisjoint(t, true, s, log);
    DisjointByKeys(Replay(t, s, log));
  }

  /** An exact-case journal can. */
  lemma ExactJournalListsTwice(t: IpText)
    ensures
      var log := [BanPubkey("aa", "", false), AllowPubkey("AA", "", false)];
      Disjoint(DEFAULT) && AllPlain(false, log) && !Disjoint(Replay(t, DEFAULT, log))
  {
    var log := [BanPubkey("aa", "", false), AllowPubkey("AA", "", false)];
    assert Lower("AA") == "aa" && Lower("aa") == "aa";
    assert log[..1] == [log[0]] && [log[0]][..0] == [];
    assert Replay(t, DEFAULT, []) == DEFAULT;
    var one := Replay(t, DEFAULT, [log[0]]);
    assert one.blockedPubkeys == [Entry("aa", "")] && one.allowedPubkeys == [];
    var two := Replay(t, DEFAULT, log);
    assert two.blockedPubkeys == [Entry("aa", "")] by {
      assert [Entry("aa", "")][1..] == [];
    }
    assert two.allowedPubkeys == [Entry("AA", "")];
    assert EqIgnoreCase(two.blockedPubkeys[0].name, "aa") && EqIgnoreCase(two.allowedPubkeys[0].name, "aa");
    assert Lists(two.blockedPubkeys, "aa") && Lists(two.allowedPubkeys, "aa");
  }

  lemma {:induction false} ListsRegister(list: seq<Entry>, insensitive: bool, pubkey: string, reason: string, x: string)
    ensures Lists(Register(list, insensitive, pubkey, reason), x) <==> Lists(list, x) || EqIgnoreCase(pubkey, x)
    decreases |list|
  {
    var r := Register(list, insensitive, pubkey, reason);
    if list != [] {
      ListsCons(list, x);
      ListsRegister(list[1..], insensitive, pubkey, reason, x);
      LowerIdempotent(pubkey);
      ListsCons(r, x);
      assert r[1..] == list[1..] || r[1..] == Register(list[1..], insensitive, pubkey, reason);
    } else {
      ListsCons(r, x);
    }
  }

  lemma ListsCons(list: seq<Entry>, x: string)
    requires list != []
    ensures Lists(list, x) <==> EqIgnoreCase(list[0].name, x) || Lists(list[1..], x)
  {
    assert forall i :: 0 <= i < |list[1..]| ==> list[1..][i] == list[i + 1];
    assert forall i :: 0 < i < |list| ==> list[i] == list[1..][i - 1];
  }

  /** Whether a list holds a pubkey in another spelling than the given one. */
  predicate Respelled(list: seq<Entry>, pubkey: string, x: string) {
    exists i :: 0 <= i < |list| && list[i].name != pubkey && EqIgnoreCase(list[i].name, x)
  }

  lemma RespelledCons(list: seq<Entry>, pubkey: string, x: string)
    requires list != []
    ensures Respelled(list, pubkey, x) <==>
      (list[0].name != pubkey && EqIgnoreCase(list[0].name, x)) || Respelled(list[1..], pubkey, x)
  {
    assert forall i :: 0 <= i < |list[1..]| ==> list[1..][i] == list[i + 1];
    assert forall i :: 0 < i < |list| ==> list[i] == list[1..][i - 1];
  }

  lemma {:induction false} ListsRetainExact(list: seq<Entry>, pubkey: string, x: string)
    ensures Lists(Retain(list, false, pubkey), x) <==> Respelled(list, pubkey, x)
    decreases |list|
  {
    if list != [] {
      var rest := Retain(list[1..], false, pubkey);
      ListsRetainExact(list[1..], pubkey, x);
      RespelledCons(list, pubkey, x);
      if list[0].name != pubkey {
        ListsCons([list[0]] + rest, x);
        assert ([list[0]] + rest)[1..] == rest;
      }
    }
  }

  /** Exactly when an exact-case ban keeps the lists disjoint: no other spelling
      of the pubkey may be allowed. Likewise for an exact-case allow. */
  lemma ExactOpKeepsDisjoint(t: IpText, s: AccessControl, pubkey: string, reason: string)
    requires Disjoint(s)
    ensures Disjoint(ApplyOp(t, s, BanPubkey(pubkey, reason, false))) <==> !Respelled(s.allowedPubkeys, pubkey, pubkey)
    ensures Disjoint(ApplyOp(t, s, AllowPubkey(pubkey, reason, false))) <==>
      !Respelled(s.blockedPubkeys, pubkey, pubkey)
  {
    MovedDisjoint(s.blockedPubkeys, s.allowedPubkeys, pubkey, reason);
    MovedDisjoint(s.allowedPubkeys, s.blockedPubkeys, pubkey, reason);
    var ban := ApplyOp(t, s, BanPubkey(pubkey, reason, false));
    var allow := ApplyOp(t, s, AllowPubkey(pubkey, reason, false));
    assert Disjoint(ban) <==> Apart(ban.blockedPubkeys, ban.allowedPubkeys);
    assert Disjoint(allow) <==> Apart(allow.allowedPubkeys, allow.blockedPubkeys);
  }

  ghost predicate Apart(a: seq<Entry>, b: seq<Entry>) {
    forall pk :: !(Lists(a, pk) && Lists(b, pk))
  }

  lemma MovedDisjoint(to: seq<Entry>, from: seq<Entry>, pubkey: string, reason: string)
    requires Apart(to, from)
    ensures Apart(Register(to, false, pubkey, reason), Retain(from, false, pubkey)) <==>
      !Respelled(from, pubkey, pubkey)
  {
    ListsRegister(to, false, pubkey, reason, pubkey);
    ListsRetainExact(from, pubkey, pubkey);
    if !Respelled(from, pubkey, pubkey) {
      forall x ensures !(Lists(Register(to, false, pubkey, reason), x) && Lists(Retain(from, false, pubkey), x)) {
        ListsRegister(to, false, pubkey, reason, x);
        ListsRetainExact(from, pubkey, x);
        assert !(Lists(to, x) && Lists(from, x));
        RespelledIsListed(from, pubkey, x);
      }
    }
  }

  lemma RespelledIsListed(list: seq<Entry>, pubkey: string, x: string)
    ensures Respelled(list, pubkey, x) ==> Lists(list, x)
    ensures Respelled(list, pubkey, x) && EqIgnoreCase(pubkey, x) ==> Respelled(list, pubkey, pubkey)
  {
  }

  // ----- journals in one spelling -----

  function ListNames(list: seq<Entry>): set<string> {
    set i | 0 <= i < |list| :: list[i].name
  }

  function StateNames(s: AccessControl): set<string> {
    ListNames(s.blockedPubkeys) + ListNames(s.allowedPubkeys)
  }

  function OpNames(op: AccessOp): set<string> {
    if NamesPubkey(op) then {op.pubkey} else {}
  }

  function LogNames(log: seq<AccessOp>): set<string> {
    if log == [] then {} else LogNames(log[..|log| - 1]) + OpNames(log[|log| - 1])
  }

  /** Names equal up to case are equal. */
  ghost predicate OneSpelling(names: set<string>) {
    forall a, b :: a in names && b in names && Lower(a) == Lower(b) ==> a == b
  }

  /** The op as if it compared pubkeys without case. */
  function Caseless(op: AccessOp): AccessOp {
    match op
    case BanPubkey(pubkey, reason, _) => BanPubkey(pubkey, reason, true)
    case UnbanPubkey(pubkey, _) => UnbanPubkey(pubkey, true)
    case AllowPubkey(pubkey, reason, _) => AllowPubkey(pubkey, reason, true)
    case UnallowPubkey(pubkey, _) => UnallowPubkey(pubkey, true)
    case _ => op
  }

  function CaselessLog(log: seq<AccessOp>): (r: seq<AccessOp>)
    ensures |r| == |log|
  {
    seq(|log|, i requires 0 <= i < |log| => Caseless(log[i]))
  }

  lemma {:induction false} SameListsEitherWay(list: seq<Entry>, insensitive: bool, pubkey: string, reason: string)
    requires OneSpelling(ListNames(list) + {pubkey})
    ensures Retain(list, insensitive, pubkey) == Retain(list, true, pubkey)
    ensures Register(list, insensitive, pubkey, reason) == Register(list, true, pubkey, reason)
    ensures ListNames(Retain(list, true, pubkey)) <= ListNames(list)
    ensures ListNames(Register(list, true, pubkey, reason)) <= ListNames(list) + {pubkey}
    decreases |list|
  {
    if list != [] {
      NamesCons(list);
      SameListsEitherWay(list[1..], insensitive, pubkey, reason);
      assert KeyOf(insensitive, list[0].name) == KeyOf(insensitive, pubkey) <==> list[0].name == pubkey;
      var retained, registered := Retain(list, true, pubkey), Register(list, true, pubkey, reason);
      if list[0].name != pubkey {
        NamesCons(retained);
        assert retained[1..] == Retain(list[1..], true, pubkey);
      }
      NamesCons(registered);
      assert registered[1..] == list[1..] || registered[1..] == Register(list[1..], true, pubkey, reason);
    } else {
      NamesCons(Register(list, true, pubkey, reason));
    }
  }

  lemma NamesCons(list: seq<Entry>)
    requires list != []
    ensures ListNames(list) == {list[0].name} + ListNames(list[1..])
  {
    forall n | n in ListNames(list) ensures n == list[0].name || n in ListNames(list[1..]) {
      var i :| 0 <= i < |list| && list[i].name == n;
      assert i > 0 ==> list[1..][i - 1] == list[i];
    }
    forall n | n in ListNames(list[1..]) ensures n in ListNames(list) {
      var i :| 0 <= i < |list[1..]| && list[1..][i].name == n;
      assert list[i + 1] == list[1..][i];
    }
  }

  lemma OneSpellingOf(names: set<string>, fewer: set<string>)
    requires OneSpelling(names) && fewer <= names
    ensures OneSpelling(fewer)
  {
  }

  lemma SameEitherWay(t: IpText, s: AccessControl, op: AccessOp)
    requires OneSpelling(StateNames(s) + OpNames(op))
    ensures ApplyOp(t, s, op) == ApplyOp(t, s, Caseless(op))
    ensures StateNames(ApplyOp(t, s, op)) <= StateNames(s) + OpNames(op)
  {
    if NamesPubkey(op) {
      var mode, reason := op.insensitive, if op.BanPubkey? || op.AllowPubkey? then op.reason else "";
      OneSpellingOf(StateNames(s) + OpNames(op), ListNames(s.blockedPubkeys) + {op.pubkey});
      OneSpellingOf(StateNames(s) + OpNames(op), ListNames(s.allowedPubkeys) + {op.pubkey});
      SameListsEitherWay(s.blockedPubkeys, mode, op.pubkey, reason);
      SameListsEitherWay(s.allowedPubkeys, mode, op.pubkey, reason);
    }
  }

  /** In one spelling, how each op compares pubkeys does not show. */
  lemma {:induction false} SpellingDecides(t: IpText, s: AccessControl, log: seq<AccessOp>)
    requires OneSpelling(StateNames(s) + LogNames(log))
    ensures Replay(t, s, log) == Replay(t, s, CaselessLog(log))
    ensures StateNames(Replay(t, s, log)) <= StateNames(s) + LogNames(log)
    decreases |log|
  {
    if log != [] {
      var prefix, op := log[..|log| - 1], log[|log| - 1];
      OneSpellingOf(StateNames(s) + LogNames(log), StateNames(s) + LogNames(prefix));
      SpellingDecides(t, s, prefix);
      var before := Replay(t, s, prefix);
      OneSpellingOf(StateNames(s) + LogNames(log), StateNames(before) + OpNames(op));
      SameEitherWay(t, before, op);
      assert CaselessLog(log)[..|log| - 1] == CaselessLog(prefix);
    }
  }

  ghost predicate UnblocksNormalised(log: seq<AccessOp>) {
    forall i :: 0 <= i < |log| && log[i].UnblockIp? ==> Normalize(log[i].ip) == log[i].ip
  }

  lemma CaselessIsPlain(log: seq<AccessOp>)
    requires UnblocksNormalised(log)
    ensures AllPlain(true, CaselessLog(log))
  {
  }

  /** Replaying a part and then the whole, with every op made caseless. */
  lemma PartThenWhole(t: IpText, s: AccessControl, log: seq<AccessOp>, n: nat)
    requires n <= |log| && OneSpelling(StateNames(s) + LogNames(log))
    ensures Replay(t, Replay(t, s, log[..n]), log) == Replay(t, Replay(t, s, CaselessLog(log)[..n]), CaselessLog(log))
  {
    var part := log[..n];
    LogNamesOf(log, n);
    OneSpellingOf(StateNames(s) + LogNames(log), StateNames(s) + LogNames(part));
    SpellingDecides(t, s, part);
    assert CaselessLog(part) == CaselessLog(log)[..n];
    var base := Replay(t, s, part);
    OneSpellingOf(StateNames(s) + LogNames(log), StateNames(base) + LogNames(log));
    SpellingDecides(t, base, log);
  }

  /** So a journal that mixes both kinds of op, in one spelling, can be replayed
      over any prefix of itself and puts no pubkey on both lists. */
  lemma MixedJournalInOneSpelling(t: IpText, s: AccessControl, log: seq<AccessOp>, n: nat)
    requires RoundTrips(t) && StateOk(t, s) && UnblocksNormalised(log) && n <= |log|
    requires OneSpelling(StateNames(s) + LogNames(log))
    ensures DecideAlike(Replay(t, Replay(t, s, log[..n]), log), Replay(t, s, log))
    ensures Disjoint(s) ==> Disjoint(Replay(t, s, log))
  {
    CaselessIsPlain(log);
    SpellingDecides(t, s, log);
    PartThenWhole(t, s, log, n);
    ReplayIsIdempotent(t, true, s, CaselessLog(log), n);
    if Disjoint(s) {
      ListsStayDisjoint(t, s, CaselessLog(log));
    }
  }

  lemma {:induction false} LogNamesOf(log: seq<AccessOp>, n: nat)
    requires n <= |log|
    ensures LogNames(log[..n]) <= LogNames(log)
    decreases |log|
  {
    if n < |log| {
      assert log[..|log| - 1][..n] == log[..n];
      LogNamesOf(log[..|log| - 1], n);
    } else {
      assert log[..n] == log;
    }
  }
}
