/** NIP-01/NIP-91 tag filters: the declarative meaning, and the plan that is
    compiled from a filter and matched in one pass over an event's tags. */
module TagPlan {
  import opened Text
  import opened Events
  import opened Bits

  const MAX_FILTER_TAG_VALUES: nat := 512
  const WORDS: nat := 8

  datatype Json = Str(text: string) | Arr(items: seq<Json>) | OtherJson

  /** One attribute of a filter's JSON object. */
  datatype Attr = Attr(name: string, value: Json)

  datatype Operator = And(tag: string) | Or(tag: string) | Unknown

  function OperatorOf(name: string): Operator {
    if name == "" then Unknown
    else if name[0] == '&' then And(name[1..])
    else if name[0] == '#' then Or(name[1..])
    else Unknown
  }

  /** A JSON object has each name once. */
  ghost predicate IsObject(attrs: seq<Attr>) {
    forall i, j :: 0 <= i < j < |attrs| ==> attrs[i].name != attrs[j].name
  }

  /** The string values of an attribute: one string, or those of an array. */
  function Strings(items: seq<Json>): seq<string> {
    if items == [] then []
    else (if items[0].Str? then [items[0].text] else []) + Strings(items[1..])
  }

  function TagValues(v: Json): seq<string> {
    match v
    case Str(text) => [text]
    case Arr(items) => Strings(items)
    case OtherJson => []
  }

  function Values(a: Attr): set<string> {
    set v | v in TagValues(a.value)
  }

  /** The AND values of a tag name, none when the filter has no such attribute. */
  function AndValues(attrs: seq<Attr>, tag: string): set<string> {
    if attrs == [] then {}
    else if OperatorOf(attrs[0].name) == And(tag) then Values(attrs[0])
    else AndValues(attrs[1..], tag)
  }

  // ----- the declarative meaning -----

  ghost predicate AnyTag(tags: seq<seq<string>>, name: string, values: set<string>) {
    exists v :: v in values && HasTag(tags, name, v)
  }

  /** What one attribute of the filter asks of an event's tags. */
  ghost predicate Holds(attrs: seq<Attr>, a: Attr, tags: seq<seq<string>>) {
    match OperatorOf(a.name)
    case And(tag) =>
      tag != "" && Values(a) != {} && forall v :: v in Values(a) ==> HasTag(tags, tag, v)
    case Or(tag) =>
      && tag != "" && Values(a) != {}
      && var rest := Values(a) - AndValues(attrs, tag);
         rest == {} || AnyTag(tags, tag, rest)
    case Unknown => true
  }

  ghost predicate Declared(attrs: seq<Attr>, tags: seq<seq<string>>) {
    forall i :: 0 <= i < |attrs| ==> Holds(attrs, attrs[i], tags)
  }

  // ----- constraints -----

  datatype Constraint = Constraint(name: string, values: set<string>)

  ghost predicate Satisfied(c: Constraint, tags: seq<seq<string>>) {
    AnyTag(tags, c.name, c.values)
  }

  predicate Malformed(a: Attr) {
    match OperatorOf(a.name)
    case And(tag) => tag == "" || Values(a) == {}
    case Or(tag) => tag == "" || Values(a) == {}
    case Unknown => false
  }

  /** The constraints one well-formed attribute stands for. */
  ghost function Required(attrs: seq<Attr>, a: Attr): set<Constraint> {
    match OperatorOf(a.name)
    case And(tag) => set v | v in Values(a) :: Constraint(tag, {v})
    case Or(tag) =>
      var rest := Values(a) - AndValues(attrs, tag);
      if rest == {} then {} else {Constraint(tag, rest)}
    case Unknown => {}
  }

  lemma RequiredMeans(attrs: seq<Attr>, a: Attr, tags: seq<seq<string>>)
    requires !Malformed(a)
    ensures Holds(attrs, a, tags) <==> forall c :: c in Required(attrs, a) ==> Satisfied(c, tags)
  {
    if OperatorOf(a.name).And? {
      var tag := OperatorOf(a.name).tag;
      forall v | v in Values(a)
        ensures Constraint(tag, {v}) in Required(attrs, a)
        ensures Satisfied(Constraint(tag, {v}), tags) <==> HasTag(tags, tag, v)
      {
        if HasTag(tags, tag, v) {
          assert v in {v};
        }
      }
      if Holds(attrs, a, tags) {
        forall c | c in Required(attrs, a) ensures Satisfied(c, tags) {
          var v :| v in Values(a) && c == Constraint(tag, {v});
        }
      }
    } else if OperatorOf(a.name).Or? {
      var rest := Values(a) - AndValues(attrs, OperatorOf(a.name).tag);
      if rest != {} {
        assert Constraint(OperatorOf(a.name).tag, rest) in Required(attrs, a);
      }
    }
  }

  /** Two attributes never claim the same tag name and value: an OR leaves out
      what the AND of its name covers. */
  lemma RequiredDisjoint(attrs: seq<Attr>, i: nat, j: nat, c: Constraint, d: Constraint)
    requires IsObject(attrs) && i < |attrs| && j < |attrs| && i != j
    requires c in Required(attrs, attrs[i]) && d in Required(attrs, attrs[j]) && c.name == d.name
    ensures c.values !! d.values
  {
    SameName(attrs, i, j);
    if OperatorOf(attrs[i].name).And? {
      AndValuesAt(attrs, i);
    } else {
      AndValuesAt(attrs, j);
    }
  }

  lemma SameName(attrs: seq<Attr>, i: nat, j: nat)
    requires IsObject(attrs) && i < |attrs| && j < |attrs| && i != j
    ensures OperatorOf(attrs[i].name) == OperatorOf(attrs[j].name) ==> OperatorOf(attrs[i].name).Unknown?
  {
    if OperatorOf(attrs[i].name) == OperatorOf(attrs[j].name) && !OperatorOf(attrs[i].name).Unknown? {
      OperatorInjective(attrs[i].name, attrs[j].name);
      assert false;
    }
  }

  lemma OperatorInjective(a: string, b: string)
    requires OperatorOf(a) == OperatorOf(b) && !OperatorOf(a).Unknown?
    ensures a == b
  {
    assert a == [a[0]] + a[1..];
    assert b == [b[0]] + b[1..];
  }

  lemma {:induction false} AndValuesAt(attrs: seq<Attr>, i: nat)
    requires IsObject(attrs) && i < |attrs| && OperatorOf(attrs[i].name).And?
    ensures AndValues(attrs, OperatorOf(attrs[i].name).tag) == Values(attrs[i])
    decreases |attrs|
  {
    if i > 0 {
      SameName(attrs, 0, i);
      assert attrs[1..][i - 1] == attrs[i];
      AndValuesAt(attrs[1..], i - 1);
    }
  }

  // ----- the index from (name, value) to constraint -----

  function Lookup(byName: map<string, map<string, nat>>, name: string, value: string): Option<nat> {
    if name in byName && value in byName[name] then Some(byName[name][value]) else None
  }

  /** Every (name, value) pair of a constraint leads to that constraint alone. */
  ghost predicate Indexed(constraints: seq<Constraint>, byName: map<string, map<string, nat>>) {
    && (forall i, v :: 0 <= i < |constraints| && v in constraints[i].values ==>
          Lookup(byName, constraints[i].name, v) == Some(i))
    && (forall n, v :: Lookup(byName, n, v).Some? ==> Names(constraints, Lookup(byName, n, v).value, n, v))
    && (forall i :: 0 <= i < |constraints| ==> constraints[i].values != {})
  }

  predicate Names(constraints: seq<Constraint>, i: nat, n: string, v: string) {
    i < |constraints| && constraints[i].name == n && v in constraints[i].values
  }

  ghost function Distinct(constraints: seq<Constraint>): set<Constraint> {
    set c | c in constraints
  }

  ghost predicate Linear(constraints: seq<Constraint>, tags: seq<seq<string>>) {
    forall i :: 0 <= i < |constraints| ==> Satisfied(constraints[i], tags)
  }

  /** The number of values the filter's tag attributes carry. */
  function CountValues(attrs: seq<Attr>): nat {
    if attrs == [] then 0
    else CountValues(attrs[..|attrs| - 1])
         + if OperatorOf(attrs[|attrs| - 1].name).Unknown? then 0 else |TagValues(attrs[|attrs| - 1].value)|
  }

  lemma {:induction false} DistinctAtMost(s: seq<string>)
    ensures |set v | v in s| <= |s|
  {
    if s != [] {
      var rest := s[..|s| - 1];
      DistinctAtMost(rest);
      assert (set v | v in s) == (set v | v in rest) + {s[|s| - 1]};
    }
  }

  /** The order a scan prefers constraints in: fewer values, then the name, then
      the least value. */
  ghost predicate Prefers(a: Constraint, b: Constraint) {
    || |a.values| < |b.values|
    || (|a.values| == |b.values| && LexLess(a.name, b.name))
    || (|a.values| == |b.values| && a.name == b.name
        && exists x, y :: LeastValue(a.values, x) && LeastValue(b.values, y) && LexLess(x, y))
  }

  /** Whether a plan may scan by a constraint: nothing is preferred to it. */
  ghost predicate ScansBy(constraints: seq<Constraint>, i: nat) {
    i < |constraints| && forall j :: 0 <= j < |constraints| ==> !Prefers(constraints[j], constraints[i])
  }

  lemma PrefersTransitive(a: Constraint, b: Constraint, c: Constraint)
    requires Prefers(a, b) && Prefers(b, c)
    ensures Prefers(a, c)
  {
    if |a.values| == |b.values| == |c.values| {
      if a.name != b.name && b.name != c.name {
        LexTransitive(a.name, b.name, c.name);
      } else if a.name == b.name == c.name {
        LexTotal(a.name, a.name);
        var x, y :| LeastValue(a.values, x) && LeastValue(b.values, y) && LexLess(x, y);
        var y', z :| LeastValue(b.values, y') && LeastValue(c.values, z) && LexLess(y', z);
        LeastUnique(b.values, y, y');
        LexTransitive(x, y, z);
      } else {
        LexTotal(a.name, a.name);
        LexTotal(b.name, b.name);
      }
    }
  }

  lemma NotPreferredToItself(a: Constraint)
    ensures !Prefers(a, a)
  {
    LexTotal(a.name, a.name);
    if x, y :| LeastValue(a.values, x) && LeastValue(a.values, y) && LexLess(x, y) {
      LeastUnique(a.values, x, y);
      LexTotal(x, x);
      assert false;
    }
  }

  method Least(values: set<string>) returns (v: string)
    requires values != {}
    ensures LeastValue(values, v)
  {
    v :| v in values;
    var left := values - {v};
    while left != {}
      invariant left <= values && LeastValue(values - left, v)
    {
      var x :| x in left;
      LexTotal(v, x);
      if LexLess(x, v) {
        forall y | y in values - left && y != v ensures LexLess(x, y) {
          LexTransitive(x, v, y);
        }
        v := x;
      }
      left := left - {x};
    }
    assert values - left == values;
  }

  method IsPreferred(a: Constraint, b: Constraint) returns (r: bool)
    requires a.values != {} && b.values != {}
    ensures r <==> Prefers(a, b)
  {
    if |a.values| != |b.values| {
      return |a.values| < |b.values|;
    }
    LexTotal(a.name, b.name);
    if a.name != b.name {
      return LexLess(a.name, b.name);
    }
    var x := Least(a.values);
    var y := Least(b.values);
    if LexLess(x, y) {
      return true;
    }
    forall x', y' | LeastValue(a.values, x') && LeastValue(b.values, y') ensures x' == x && y' == y {
      LeastUnique(a.values, x, x');
      LeastUnique(b.values, y, y');
    }
    return false;
  }

  /** Sets one bit of the bitmap; `first` when it was clear. */
  method Mark(satisfied: array<nat>, index: nat, ghost hit: set<nat>) returns (first: bool)
    requires index < MAX_FILTER_TAG_VALUES && Bitmap(satisfied[..], hit)
    modifies satisfied
    ensures first <==> index !in hit
    ensures Bitmap(satisfied[..], hit + {index})
  {
    assert BitAt(satisfied[index / 64], index % 64) == Marked(satisfied[..], index);
    if BitAt(satisfied[index / 64], index % 64) {
      assert hit + {index} == hit;
      return false;
    }
    MarkOne(satisfied[..], index);
    SetBitFits(satisfied[index / 64], index % 64, 64);
    ghost var before := satisfied[..];
    satisfied[index / 64] := SetBit(satisfied[index / 64], index % 64);
    assert satisfied[..] == before[index / 64 := SetBit(before[index / 64], index % 64)];
    return true;
  }

  /** What one tag adds to the satisfied constraints: the one the index gives. */
  ghost function Added(byName: map<string, map<string, nat>>, tag: seq<string>): set<nat> {
    if |tag| >= 2 && Lookup(byName, tag[0], tag[1]).Some? then {Lookup(byName, tag[0], tag[1]).value} else {}
  }

  /** Marks what one tag satisfies; `first` when that was not satisfied yet. */
  method MarkTag(satisfied: array<nat>, ghost constraints: seq<Constraint>, byName: map<string, map<string, nat>>,
                 tag: seq<string>, ghost hit: set<nat>) returns (first: bool)
    requires Indexed(constraints, byName) && |constraints| <= MAX_FILTER_TAG_VALUES && Bitmap(satisfied[..], hit)
    modifies satisfied
    ensures Bitmap(satisfied[..], hit + Added(byName, tag))
    ensures |hit + Added(byName, tag)| == |hit| + (if first then 1 else 0)
  {
    if |tag| < 2 {
      assert hit + Added(byName, tag) == hit;
      return false;
    }
    var found := Lookup(byName, tag[0], tag[1]);
    if found.None? {
      assert hit + Added(byName, tag) == hit;
      return false;
    }
    assert Names(constraints, found.value, tag[0], tag[1]);
    assert found.value in hit ==> hit + {found.value} == hit;
    first := Mark(satisfied, found.value, hit);
  }

  /** The one-pass matcher, for at most as many constraints as the bitmap holds. */
  method MatchesBitmap(constraints: seq<Constraint>, byName: map<string, map<string, nat>>, tags: seq<seq<string>>)
    returns (r: bool)
    requires Indexed(constraints, byName) && 0 < |constraints| <= MAX_FILTER_TAG_VALUES
    ensures r <==> Linear(constraints, tags)
  {
    var satisfied := new nat[WORDS](_ => 0);
    var remaining := |constraints|;
    ghost var hit: set<nat> := {};
    NoneMarked(satisfied[..]);
    NoHits(constraints);
    for k := 0 to |tags|
      invariant hit == Hits(constraints, tags[..k]) && remaining == |constraints| - |hit| && remaining > 0
      invariant Bitmap(satisfied[..], hit)
    {
      HitsSnoc(constraints, byName, tags, k);
      var first := MarkTag(satisfied, constraints, byName, tags[k], hit);
      hit := hit + Added(byName, tags[k]);
      if first {
        remaining := remaining - 1;
        if remaining == 0 {
          LinearByPrefix(constraints, tags, k + 1);
          return true;
        }
      }
    }
    assert tags[..|tags|] == tags;
    LinearByHits(constraints, tags);
    return false;
  }

  class TagMatchPlan {
    var constraints: seq<Constraint>
    var byName: map<string, map<string, nat>>
    var impossible: bool

    ghost predicate Valid()
      reads this
    {
      Indexed(constraints, byName)
    }

    /** What the plan was compiled from. */
    ghost predicate Compiles(attrs: seq<Attr>)
      reads this
    {
      && Valid()
      && (impossible <==> exists i :: 0 <= i < |attrs| && Malformed(attrs[i]))
      && (!impossible ==> RequiredBy(attrs, |attrs|, Distinct(constraints)))
      && |constraints| <= CountValues(attrs)
    }

    /** Compiles a filter, attribute by attribute. */
    constructor (attrs: seq<Attr>)
      requires IsObject(attrs)
      ensures Compiles(attrs)
    {
      constraints, byName, impossible := [], map[], false;
      new;
      for i := 0 to |attrs|
        invariant Valid() && !impossible
        invariant forall k :: 0 <= k < i ==> !Malformed(attrs[k])
        invariant RequiredBy(attrs, i, Distinct(constraints))
        invariant |constraints| <= CountValues(attrs[..i])
      {
        var a := attrs[i];
        assert attrs[..i + 1][..i] == attrs[..i];
        if Malformed(a) {
          impossible := true;
          CountGrows(attrs, i);
          return;
        }
        AddAttribute(attrs, i);
      }
      assert attrs[..|attrs|] == attrs;
    }

    /** Adds what one well-formed attribute requires. */
    method AddAttribute(attrs: seq<Attr>, i: nat)
      requires IsObject(attrs) && i < |attrs| && !Malformed(attrs[i])
      requires Valid() && RequiredBy(attrs, i, Distinct(constraints))
      modifies this`constraints, this`byName
      ensures Valid() && RequiredBy(attrs, i + 1, Distinct(constraints))
      ensures |constraints| <= |old(constraints)|
        + (if OperatorOf(attrs[i].name).Unknown? then 0 else |TagValues(attrs[i].value)|)
    {
      var a := attrs[i];
      DistinctAtMost(TagValues(a.value));
      forall c | c in Required(attrs, a) ensures forall v :: v in c.values ==> Lookup(byName, c.name, v).None? {
        FreshFor(attrs, i, c, constraints, byName);
      }
      ghost var before := constraints;
      match OperatorOf(a.name) {
        case Unknown =>
        case Or(tag) =>
          var rest := Values(a) - AndValues(attrs, tag);
          if rest != {} {
            assert Constraint(tag, rest) in Required(attrs, a);
            AddConstraint(tag, rest);
            assert Distinct(constraints) == Distinct(before) + {Constraint(tag, rest)};
          }
        case And(tag) =>
          forall v | v in Values(a) ensures Lookup(byName, tag, v).None? {
            assert Constraint(tag, {v}) in Required(attrs, a);
            assert v in Constraint(tag, {v}).values;
          }
          AddAll(tag, Values(a));
      }
      assert Distinct(constraints) == Distinct(before) + Required(attrs, a);
    }

    /** One constraint per AND value, in any order. */
    method AddAll(tag: string, values: set<string>)
      requires Valid() && forall v :: v in values ==> Lookup(byName, tag, v).None?
      modifies this`constraints, this`byName
      ensures Valid() && |constraints| == |old(constraints)| + |values|
      ensures Distinct(constraints) == Distinct(old(constraints)) + (set v | v in values :: Constraint(tag, {v}))
    {
      var left := values;
      while left != {}
        invariant left <= values && Valid()
        invariant forall v :: v in left ==> Lookup(byName, tag, v).None?
        invariant |constraints| == |old(constraints)| + |values| - |left|
        invariant Distinct(constraints) ==
          Distinct(old(constraints)) + (set v | v in values - left :: Constraint(tag, {v}))
      {
        var v :| v in left;
        ghost var before := constraints;
        AddConstraint(tag, {v});
        assert Distinct(constraints) == Distinct(before) + {Constraint(tag, {v})};
        left := left - {v};
      }
    }

    method AddConstraint(name: string, values: set<string>)
      requires Valid() && values != {} && forall v :: v in values ==> Lookup(byName, name, v).None?
      modifies this`constraints, this`byName
      ensures Valid() && constraints == old(constraints) + [Constraint(name, values)]
      ensures
        forall n, v ::
          Lookup(byName, n, v) ==
            if n == name && v in values then Some(|old(constraints)|) else Lookup(old(byName), n, v)
    {
      var index := |constraints|;
      var byValue := if name in byName then byName[name] else map[];
      var left := values;
      while left != {}
        invariant left <= values
        invariant byValue == (if name in byName then byName[name] else map[]) + (map v | v in values - left :: index)
      {
        var value :| value in left;
        byValue := byValue[value := index];
        left := left - {value};
      }
      byName := byName[name := byValue];
      constraints := constraints + [Constraint(name, values)];
      IndexedSnoc(old(constraints), old(byName), Constraint(name, values), byName);
    }

    /** The constraint candidates are scanned by: the first nothing is preferred to. */
    method ScanConstraint() returns (best: Option<nat>)
      requires Valid()
      ensures best.None? <==> constraints == []
      ensures best.Some? ==> ScansBy(constraints, best.value)
    {
      if constraints == [] {
        return None;
      }
      var b := 0;
      NotPreferredToItself(constraints[0]);
      for i := 1 to |constraints|
        invariant b < |constraints|
        invariant forall j :: 0 <= j < i ==> !Prefers(constraints[j], constraints[b])
      {
        var better := IsPreferred(constraints[i], constraints[b]);
        if better {
          forall j | 0 <= j < i ensures !Prefers(constraints[j], constraints[i]) {
            if Prefers(constraints[j], constraints[i]) {
              PrefersTransitive(constraints[j], constraints[i], constraints[b]);
            }
          }
          NotPreferredToItself(constraints[i]);
          b := i;
        }
      }
      return Some(b);
    }

    /** One pass over the tags, marking constraints in a bitmap. */
    method Matches(tags: seq<seq<string>>) returns (r: bool)
      requires Valid()
      ensures r <==> !impossible && Linear(constraints, tags)
    {
      if impossible {
        return false;
      }
      if constraints == [] {
        return true;
      }
      if |constraints| > MAX_FILTER_TAG_VALUES {
        r := MatchesLinear(tags);
        return;
      }
      r := MatchesBitmap(constraints, byName, tags);
    }

    /** The fallback for filters beyond the bitmap. */
    method MatchesLinear(tags: seq<seq<string>>) returns (r: bool)
      requires Valid()
      ensures r <==> !impossible && Linear(constraints, tags)
    {
      if impossible {
        return false;
      }
      for i := 0 to |constraints|
        invariant forall k :: 0 <= k < i ==> Satisfied(constraints[k], tags)
      {
        var any := false;
        for j := 0 to |tags|
          invariant any <==> exists k :: 0 <= k < j && Hit(constraints[i], tags[k])
        {
          if |tags[j]| >= 2 && tags[j][0] == constraints[i].name && tags[j][1] in constraints[i].values {
            any := true;
          }
        }
        SatisfiedByHit(constraints[i], tags);
        if !any {
          return false;
        }
      }
      return true;
    }
  }

  lemma IndexedSnoc(
    constraints: seq<Constraint>, byName: map<string, map<string, nat>>, c: Constraint,
    after: map<string, map<string, nat>>)
    requires Indexed(constraints, byName) && c.values != {}
    requires
      forall n, v ::
        Lookup(after, n, v) == if n == c.name && v in c.values then Some(|constraints|) else Lookup(byName, n, v)
    requires forall v :: v in c.values ==> Lookup(byName, c.name, v).None?
    ensures Indexed(constraints + [c], after)
  {
    var all := constraints + [c];
    forall n, v | Lookup(after, n, v).Some? ensures Names(all, Lookup(after, n, v).value, n, v) {
      if !(n == c.name && v in c.values) {
        assert Names(constraints, Lookup(byName, n, v).value, n, v);
      }
    }
    forall i, v | 0 <= i < |all| && v in all[i].values ensures Lookup(after, all[i].name, v) == Some(i) {
      if i < |constraints| {
        assert Lookup(byName, constraints[i].name, v) == Some(i);
      }
    }
  }

  /** What an attribute requires is new to an index built from earlier ones. */
  lemma FreshFor(
    attrs: seq<Attr>, i: nat, c: Constraint, constraints: seq<Constraint>, byName: map<string, map<string, nat>>)
    requires IsObject(attrs) && i < |attrs| && Indexed(constraints, byName) && c in Required(attrs, attrs[i])
    requires RequiredBy(attrs, i, Distinct(constraints))
    ensures forall v :: v in c.values ==> Lookup(byName, c.name, v).None?
  {
    forall v | v in c.values ensures Lookup(byName, c.name, v).None? {
      if Lookup(byName, c.name, v).Some? {
        var k := Lookup(byName, c.name, v).value;
        assert Names(constraints, k, c.name, v);
        assert constraints[k] in Distinct(constraints);
        var j :| 0 <= j < i && constraints[k] in Required(attrs, attrs[j]);
        RequiredDisjoint(attrs, j, i, constraints[k], c);
      }
    }
  }

  lemma {:induction false} CountGrows(attrs: seq<Attr>, i: nat)
    requires i <= |attrs|
    ensures CountValues(attrs[..i]) <= CountValues(attrs)
    decreases |attrs|
  {
    if i < |attrs| {
      assert attrs[..|attrs| - 1][..i] == attrs[..i];
      CountGrows(attrs[..|attrs| - 1], i);
    } else {
      assert attrs[..i] == attrs;
    }
  }

  // ----- the bitmap -----

  /** Bit `i` of the satisfaction bitmap. */
  predicate Marked(words: seq<nat>, i: nat)
    requires i / 64 < |words|
  {
    BitAt(words[i / 64], i % 64)
  }

  /** Eight 64-bit words hold the set of satisfied constraints. */
  ghost predicate Bitmap(words: seq<nat>, hit: set<nat>) {
    && |words| == WORDS
    && (forall j :: 0 <= j < WORDS ==> words[j] < Pow2(64))
    && (forall i: nat :: i < MAX_FILTER_TAG_VALUES ==> (Marked(words, i) <==> i in hit))
  }

  lemma NoneMarked(words: seq<nat>)
    requires |words| == WORDS && forall j :: 0 <= j < WORDS ==> words[j] == 0
    ensures Bitmap(words, {})
  {
    forall i: nat | i < MAX_FILTER_TAG_VALUES ensures !Marked(words, i) {
      ZeroHasNoBits(i % 64);
    }
  }

  lemma MarkOne(words: seq<nat>, index: nat)
    requires |words| == WORDS && index < MAX_FILTER_TAG_VALUES
    ensures
      var after := words[index / 64 := SetBit(words[index / 64], index % 64)];
      forall i: nat :: i < MAX_FILTER_TAG_VALUES ==> (Marked(after, i) <==> i == index || Marked(words, i))
  {
    var after := words[index / 64 := SetBit(words[index / 64], index % 64)];
    forall i: nat | i < MAX_FILTER_TAG_VALUES ensures Marked(after, i) <==> i == index || Marked(words, i) {
      SetBitAt(words[index / 64], index % 64, i % 64);
    }
  }

  /** One tag satisfies one constraint. */
  predicate Hit(c: Constraint, tag: seq<string>) {
    |tag| >= 2 && tag[0] == c.name && tag[1] in c.values
  }

  lemma SatisfiedByHit(c: Constraint, tags: seq<seq<string>>)
    ensures Satisfied(c, tags) <==> exists k :: 0 <= k < |tags| && Hit(c, tags[k])
  {
    if Satisfied(c, tags) {
      var v :| v in c.values && HasTag(tags, c.name, v);
      var k :| 0 <= k < |tags| && IsTag(tags[k], c.name, v);
      assert Hit(c, tags[k]);
    }
    if k :| 0 <= k < |tags| && Hit(c, tags[k]) {
      assert IsTag(tags[k], c.name, tags[k][1]);
      assert HasTag(tags, c.name, tags[k][1]);
    }
  }

  ghost function Hits(constraints: seq<Constraint>, tags: seq<seq<string>>): set<nat>
  {
    set i: nat | i < |constraints| && Satisfied(constraints[i], tags)
  }

  lemma NoHits(constraints: seq<Constraint>)
    ensures Hits(constraints, []) == {}
  {
  }

  /** A tag satisfies at most the one constraint the index gives for it. */
  lemma HitsOne(constraints: seq<Constraint>, byName: map<string, map<string, nat>>, tag: seq<string>, i: nat)
    requires Indexed(constraints, byName) && i < |constraints|
    ensures Hit(constraints[i], tag) <==> i in Added(byName, tag)
  {
    if |tag| >= 2 && Lookup(byName, tag[0], tag[1]).Some? {
      assert Names(constraints, Lookup(byName, tag[0], tag[1]).value, tag[0], tag[1]);
    }
  }

  lemma SatisfiedSnoc(c: Constraint, tags: seq<seq<string>>, k: nat)
    requires k < |tags|
    ensures Satisfied(c, tags[..k + 1]) <==> Satisfied(c, tags[..k]) || Hit(c, tags[k])
  {
    SatisfiedByHit(c, tags[..k]);
    SatisfiedByHit(c, tags[..k + 1]);
    var before, after := tags[..k], tags[..k + 1];
    if j :| 0 <= j < |before| && Hit(c, before[j]) {
      assert after[j] == before[j];
    }
    if j :| 0 <= j < |after| && Hit(c, after[j]) {
      assert j < k ==> before[j] == after[j];
    }
    assert after[k] == tags[k];
  }

  lemma HitsSnoc(constraints: seq<Constraint>, byName: map<string, map<string, nat>>, tags: seq<seq<string>>, k: nat)
    requires Indexed(constraints, byName) && k < |tags|
    ensures Hits(constraints, tags[..k + 1]) == Hits(constraints, tags[..k]) + Added(byName, tags[k])
  {
    forall i: nat | i < |constraints|
      ensures Satisfied(constraints[i], tags[..k + 1]) <==>
        Satisfied(constraints[i], tags[..k]) || i in Added(byName, tags[k])
    {
      SatisfiedSnoc(constraints[i], tags, k);
      HitsOne(constraints, byName, tags[k], i);
    }
    if |tags[k]| >= 2 && Lookup(byName, tags[k][0], tags[k][1]).Some? {
      assert Names(constraints, Lookup(byName, tags[k][0], tags[k][1]).value, tags[k][0], tags[k][1]);
    }
  }

  lemma HitsGrow(constraints: seq<Constraint>, tags: seq<seq<string>>, k: nat)
    requires k <= |tags|
    ensures Hits(constraints, tags[..k]) <= Hits(constraints, tags)
  {
    forall i | i in Hits(constraints, tags[..k]) ensures i in Hits(constraints, tags) {
      SatisfiedByHit(constraints[i], tags[..k]);
      SatisfiedByHit(constraints[i], tags);
      var j :| 0 <= j < |tags[..k]| && Hit(constraints[i], tags[..k][j]);
      assert tags[j] == tags[..k][j];
    }
  }

  function Below(n: nat): (r: set<nat>)
    ensures |r| == n && forall i: nat :: i in r <==> i < n
  {
    if n == 0 then {} else Below(n - 1) + {n - 1}
  }

  /** A full count means every constraint was hit. */
  lemma AllHit(constraints: seq<Constraint>, hit: set<nat>)
    requires |hit| == |constraints| && forall i :: i in hit ==> i < |constraints|
    ensures forall i :: 0 <= i < |constraints| ==> i in hit
  {
    var all := Below(|constraints|);
    forall i | 0 <= i < |constraints| ensures i in hit {
      if i !in hit {
        assert hit <= all - {i};
        SubsetSize(hit, all - {i});
      }
    }
  }

  lemma {:induction false} SubsetSize(a: set<nat>, b: set<nat>)
    requires a <= b
    ensures |a| <= |b|
  {
    if a != {} {
      var x :| x in a;
      SubsetSize(a - {x}, b - {x});
    }
  }

  /** Once every constraint is hit, later tags do not matter. */
  lemma LinearByPrefix(constraints: seq<Constraint>, tags: seq<seq<string>>, k: nat)
    requires k <= |tags| && |Hits(constraints, tags[..k])| == |constraints|
    ensures Linear(constraints, tags)
  {
    AllHit(constraints, Hits(constraints, tags[..k]));
    HitsGrow(constraints, tags, k);
    forall i | 0 <= i < |constraints| ensures Satisfied(constraints[i], tags) {
      assert i in Hits(constraints, tags[..k]) && i in Hits(constraints, tags);
    }
  }

  lemma LinearByHits(constraints: seq<Constraint>, tags: seq<seq<string>>)
    ensures Linear(constraints, tags) <==> |Hits(constraints, tags)| == |constraints|
  {
    var hits, all := Hits(constraints, tags), Below(|constraints|);
    if Linear(constraints, tags) {
      assert hits == all;
    }
    if |hits| == |constraints| {
      AllHit(constraints, hits);
      forall i | 0 <= i < |constraints| ensures Satisfied(constraints[i], tags) {
        assert i in hits;
      }
    }
  }

  /** The constraints are exactly those of the first `n` attributes. */
  ghost predicate RequiredBy(attrs: seq<Attr>, n: nat, cs: set<Constraint>)
    requires n <= |attrs|
  {
    && (forall i, c :: 0 <= i < n && c in Required(attrs, attrs[i]) ==> c in cs)
    && (forall c :: c in cs ==> exists i :: 0 <= i < n && c in Required(attrs, attrs[i]))
  }

  // ----- what a compiled plan decides -----

  /** The constraints of a compiled filter mean what the filter declares. */
  lemma CompiledMeaning(attrs: seq<Attr>, constraints: seq<Constraint>, tags: seq<seq<string>>)
    requires forall i :: 0 <= i < |attrs| ==> !Malformed(attrs[i])
    requires RequiredBy(attrs, |attrs|, Distinct(constraints))
    ensures Linear(constraints, tags) <==> Declared(attrs, tags)
  {
    if Linear(constraints, tags) {
      forall i | 0 <= i < |attrs| ensures Holds(attrs, attrs[i], tags) {
        RequiredMeans(attrs, attrs[i], tags);
        forall c | c in Required(attrs, attrs[i]) ensures Satisfied(c, tags) {
          assert c in Distinct(constraints);
        }
      }
    }
    if Declared(attrs, tags) {
      forall k | 0 <= k < |constraints| ensures Satisfied(constraints[k], tags) {
        assert constraints[k] in Distinct(constraints);
        var i :| 0 <= i < |attrs| && constraints[k] in Required(attrs, attrs[i]);
        RequiredMeans(attrs, attrs[i], tags);
      }
    }
  }

  // ----- the meaning, from the names and values of the filter itself -----

  /** A string of an attribute: the value itself, or an item of an array. */
  ghost predicate Carries(v: Json, text: string) {
    v == Str(text) || (v.Arr? && Str(text) in v.items)
  }

  lemma {:induction false} CarriesExactly(v: Json, text: string)
    ensures text in TagValues(v) <==> Carries(v, text)
  {
    if v.Arr? {
      StringsExactly(v.items, text);
    }
  }

  lemma {:induction false} StringsExactly(items: seq<Json>, text: string)
    ensures text in Strings(items) <==> Str(text) in items
  {
    if items != [] {
      StringsExactly(items[1..], text);
      assert items == [items[0]] + items[1..];
    }
  }

  /** The filter asks for this value of the tag by `&`. */
  ghost predicate AsksByAnd(attrs: seq<Attr>, tag: string, text: string) {
    exists i :: 0 <= i < |attrs| && attrs[i].name == "&" + tag && Carries(attrs[i].value, text)
  }

  /** `&t` asks for all of its values. */
  ghost predicate AllPresent(a: Attr, tags: seq<seq<string>>)
    requires a.name != ""
  {
    forall text :: Carries(a.value, text) ==> HasTag(tags, a.name[1..], text)
  }

  /** `#t` asks for one of its values that `&t` does not ask for, if there is one. */
  ghost predicate OnePresent(attrs: seq<Attr>, a: Attr, tags: seq<seq<string>>)
    requires a.name != ""
  {
    || (forall text :: Carries(a.value, text) ==> AsksByAnd(attrs, a.name[1..], text))
    || exists text :: Carries(a.value, text) && !AsksByAnd(attrs, a.name[1..], text) && HasTag(tags, a.name[1..], text)
  }

  /** What an attribute asks for, by the first character of its name: without a
      tag name or a value an operator matches nothing, and any other attribute is
      ignored. */
  ghost predicate Asks(attrs: seq<Attr>, a: Attr, tags: seq<seq<string>>) {
    if "&" <= a.name then a.name != "&" && (exists text :: Carries(a.value, text)) && AllPresent(a, tags)
    else if "#" <= a.name then a.name != "#" && (exists text :: Carries(a.value, text)) && OnePresent(attrs, a, tags)
    else true
  }

  ghost predicate Meant(attrs: seq<Attr>, tags: seq<seq<string>>) {
    forall i :: 0 <= i < |attrs| ==> Asks(attrs, attrs[i], tags)
  }

  lemma {:induction false} AndValuesExactly(attrs: seq<Attr>, tag: string, text: string)
    requires IsObject(attrs)
    ensures text in AndValues(attrs, tag) <==> AsksByAnd(attrs, tag, text)
    decreases |attrs|
  {
    if i :| 0 <= i < |attrs| && attrs[i].name == "&" + tag {
      assert attrs[i].name[1..] == tag;
      AndValuesAt(attrs, i);
      CarriesExactly(attrs[i].value, text);
    } else {
      NoneAsks(attrs, tag);
    }
  }

  lemma {:induction false} NoneAsks(attrs: seq<Attr>, tag: string)
    requires forall i :: 0 <= i < |attrs| ==> attrs[i].name != "&" + tag
    ensures AndValues(attrs, tag) == {}
    decreases |attrs|
  {
    if attrs != [] {
      assert attrs[0].name != "" ==> attrs[0].name == [attrs[0].name[0]] + attrs[0].name[1..];
      NoneAsks(attrs[1..], tag);
    }
  }

  lemma HoldsExactly(attrs: seq<Attr>, a: Attr, tags: seq<seq<string>>)
    requires IsObject(attrs)
    ensures Holds(attrs, a, tags) <==> Asks(attrs, a, tags)
  {
    forall text ensures text in Values(a) <==> Carries(a.value, text) {
      CarriesExactly(a.value, text);
    }
    if "#" <= a.name {
      forall text ensures text in AndValues(attrs, a.name[1..]) <==> AsksByAnd(attrs, a.name[1..], text) {
        AndValuesExactly(attrs, a.name[1..], text);
      }
      OrExactly(attrs, a, tags);
    }
  }

  lemma OrExactly(attrs: seq<Attr>, a: Attr, tags: seq<seq<string>>)
    requires "#" <= a.name && forall text :: text in Values(a) <==> Carries(a.value, text)
    requires forall text :: text in AndValues(attrs, a.name[1..]) <==> AsksByAnd(attrs, a.name[1..], text)
    ensures
      var rest := Values(a) - AndValues(attrs, a.name[1..]);
      rest == {} || AnyTag(tags, a.name[1..], rest) <==> OnePresent(attrs, a, tags)
  {
    var rest := Values(a) - AndValues(attrs, a.name[1..]);
    assert forall text :: text in rest <==> Carries(a.value, text) && !AsksByAnd(attrs, a.name[1..], text);
  }

  /** The declared constraints are what the filter's own names and values ask. */
  lemma DeclaredExactly(attrs: seq<Attr>, tags: seq<seq<string>>)
    requires IsObject(attrs)
    ensures Declared(attrs, tags) <==> Meant(attrs, tags)
  {
    forall i | 0 <= i < |attrs| ensures Holds(attrs, attrs[i], tags) <==> Asks(attrs, attrs[i], tags) {
      HoldsExactly(attrs, attrs[i], tags);
    }
  }

  /** For instance, one of two values is enough for `#t` and not for `&t`. */
  lemma SuchFilters()
    ensures
      var values, tags := Arr([Str("a"), Str("b")]), [["t", "a"]];
      var or, and := [Attr("#t", values)], [Attr("&t", values)];
      IsObject(or) && Meant(or, tags) && IsObject(and) && !Meant(and, tags) && IsObject(or + and)
  {
    var values, tags := Arr([Str("a"), Str("b")]), [["t", "a"]];
    var or, and := [Attr("#t", values)], [Attr("&t", values)];
    assert Str("a") == values.items[0] && Str("b") == values.items[1];
    assert IsTag(tags[0], "t", "a") && !IsTag(tags[0], "t", "b");
    assert "#t"[1..] == "t" && "&t"[1..] == "t" && "#t"[0] != "&"[0];
    assert !AsksByAnd(or, "t", "a");
    assert Carries(values, "b") && !HasTag(tags, "t", "b");
    assert !Asks(and, and[0], tags);
  }

  /** Compiles and matches: the plan, whichever matcher it picks, decides what the
      filter's own names and values ask. */
  method FilterMatches(attrs: seq<Attr>, tags: seq<seq<string>>) returns (r: bool)
    requires IsObject(attrs)
    ensures r <==> Meant(attrs, tags)
  {
    var plan := new TagMatchPlan(attrs);
    r := plan.Matches(tags);
    DeclaredExactly(attrs, tags);
    if plan.impossible {
      var i :| 0 <= i < |attrs| && Malformed(attrs[i]);
      assert !Holds(attrs, attrs[i], tags);
    } else {
      CompiledMeaning(attrs, plan.constraints, tags);
    }
  }

  /** The combined tag part of the member bound, counted only up to the cap. */
  function CappedCount(attrs: seq<Attr>): nat {
    if attrs == [] then 0
    else
      var n := |TagValues(attrs[|attrs| - 1].value)|;
      CappedCount(attrs[..|attrs| - 1])
      + if OperatorOf(attrs[|attrs| - 1].name).Unknown? then 0
        else if n > MAX_FILTER_TAG_VALUES + 1 then MAX_FILTER_TAG_VALUES + 1 else n
  }

  predicate TooManyTagValues(attrs: seq<Attr>) {
    CappedCount(attrs) > MAX_FILTER_TAG_VALUES
  }

  lemma {:induction false} CappedCountExact(attrs: seq<Attr>)
    ensures CappedCount(attrs) <= MAX_FILTER_TAG_VALUES || CountValues(attrs) <= MAX_FILTER_TAG_VALUES
      ==> CappedCount(attrs) == CountValues(attrs)
    decreases |attrs|
  {
    if attrs != [] {
      CappedCountExact(attrs[..|attrs| - 1]);
    }
  }

  /** A filter within the member bound always fits the bitmap. */
  lemma AcceptedFitsBitmap(attrs: seq<Attr>, constraints: seq<Constraint>)
    requires !TooManyTagValues(attrs) && |constraints| <= CountValues(attrs)
    ensures |constraints| <= MAX_FILTER_TAG_VALUES
  {
    CappedCountExact(attrs);
  }

  /** Where the strings of one value are: a string on its own, or in an array. */
  ghost function StringsAt(v: Json): set<nat> {
    match v
    case Str(_) => {0}
    case Arr(items) => StringItems(items)
    case OtherJson => {}
  }

  ghost function StringItems(items: seq<Json>): set<nat> {
    set j: nat | j < |items| && items[j].Str?
  }

  /** Where the strings of a filter's tag attributes are. */
  ghost function StringsIn(attrs: seq<Attr>): set<(nat, nat)> {
    set i, j | 0 <= i < |attrs| && ("&" <= attrs[i].name || "#" <= attrs[i].name) && j in StringsAt(attrs[i].value)
      :: (i, j)
  }

  lemma {:induction false} StringsSnoc(items: seq<Json>, x: Json)
    ensures Strings(items + [x]) == Strings(items) + if x.Str? then [x.text] else []
  {
    if items == [] {
      assert [] + [x] == [x];
    } else {
      StringsSnoc(items[1..], x);
      assert (items + [x])[1..] == items[1..] + [x];
    }
  }

  lemma StringItemsSnoc(items: seq<Json>, x: Json)
    ensures StringItems(items + [x]) == StringItems(items) + if x.Str? then {|items|} else {}
    ensures |items| !in StringItems(items)
  {
  }

  lemma {:induction false} StringsCounted(items: seq<Json>)
    ensures |StringItems(items)| == |Strings(items)|
    decreases |items|
  {
    if items == [] {
      assert StringItems([]) == {};
    } else {
      var before, last := items[..|items| - 1], items[|items| - 1];
      assert items == before + [last];
      StringsCounted(before);
      StringsSnoc(before, last);
      StringItemsSnoc(before, last);
    }
  }

  /** A set and its image under an injection have the same size. */
  lemma {:induction false} SameCount<A, B>(a: set<A>, b: set<B>, f: A -> B)
    requires b == set x | x in a :: f(x)
    requires forall x, y :: x in a && y in a && f(x) == f(y) ==> x == y
    ensures |a| == |b|
  {
    if a != {} {
      var x :| x in a;
      SameCount(a - {x}, b - {f(x)}, f);
    }
  }

  /** Where the strings of one attribute are, in a filter where it is the `n`th. */
  ghost function OwnStrings(a: Attr, n: nat): set<(nat, nat)> {
    if "&" <= a.name || "#" <= a.name then set j | j in StringsAt(a.value) :: (n, j) else {}
  }

  lemma {:induction false} ValuesCounted(attrs: seq<Attr>)
    ensures CountValues(attrs) == |StringsIn(attrs)|
    decreases |attrs|
  {
    if attrs == [] {
      assert StringsIn(attrs) == {};
    } else {
      var n := |attrs| - 1;
      ValuesCounted(attrs[..n]);
      OwnCounted(attrs[n], n);
      assert attrs[..n] + [attrs[n]] == attrs;
      StringsInSnoc(attrs[..n], attrs[n]);
    }
  }

  lemma OwnCounted(a: Attr, n: nat)
    ensures |OwnStrings(a, n)| == if OperatorOf(a.name).Unknown? then 0 else |TagValues(a.value)|
  {
    if "&" <= a.name || "#" <= a.name {
      if a.value.Arr? {
        StringsCounted(a.value.items);
      }
      SameCount(StringsAt(a.value), OwnStrings(a, n), j => (n, j));
    }
  }

  lemma StringsInSnoc(attrs: seq<Attr>, a: Attr)
    ensures |StringsIn(attrs + [a])| == |StringsIn(attrs)| + |OwnStrings(a, |attrs|)|
  {
    var all := attrs + [a];
    assert all[|attrs|] == a && forall i :: 0 <= i < |attrs| ==> all[i] == attrs[i];
    assert StringsIn(all) == StringsIn(attrs) + OwnStrings(a, |attrs|);
  }

  /** A filter is over the bound if and only if its tag attributes hold more than
      512 strings. */
  lemma TooManyExactly(attrs: seq<Attr>)
    ensures TooManyTagValues(attrs) <==> |StringsIn(attrs)| > 512
  {
    CappedCountExact(attrs);
    ValuesCounted(attrs);
  }

  // ----- scanning by one constraint -----

  /** Fewer values, or as many and a name that is not later, or the same name and a
      least value that is not. */
  ghost predicate ScannedFirst(a: Constraint, b: Constraint) {
    || |a.values| < |b.values|
    || (&& |a.values| == |b.values|
        && (|| LexLess(a.name, b.name)
            || (&& a.name == b.name
                && forall x, y :: LeastValue(a.values, x) && LeastValue(b.values, y) ==> !LexLess(y, x))))
  }

  /** Scan soundness: every event a filter matches carries a tag of the scanned
      constraint, so a scan by it misses none, and no constraint would be scanned before it. */
  lemma ScanMissesNothing(attrs: seq<Attr>, constraints: seq<Constraint>, i: nat, tags: seq<seq<string>>)
    requires forall k :: 0 <= k < |attrs| ==> !Malformed(attrs[k])
    requires RequiredBy(attrs, |attrs|, Distinct(constraints)) && ScansBy(constraints, i)
    requires Declared(attrs, tags)
    ensures exists k :: 0 <= k < |tags| && Hit(constraints[i], tags[k])
    ensures forall j :: 0 <= j < |constraints| ==> ScannedFirst(constraints[i], constraints[j])
  {
    CompiledMeaning(attrs, constraints, tags);
    SatisfiedByHit(constraints[i], tags);
    forall j | 0 <= j < |constraints| ensures ScannedFirst(constraints[i], constraints[j]) {
      assert !Prefers(constraints[j], constraints[i]);
      LexTotal(constraints[i].name, constraints[j].name);
    }
  }

  // ----- filters without the AND operator -----

  function DisableAndTags(attrs: seq<Attr>): seq<Attr> {
    if attrs == [] then []
    else
      var rest := DisableAndTags(attrs[..|attrs| - 1]);
      if OperatorOf(attrs[|attrs| - 1].name).And? then rest else rest + [attrs[|attrs| - 1]]
  }

  lemma {:induction false} DisabledAttrs(attrs: seq<Attr>, a: Attr)
    ensures a in DisableAndTags(attrs) <==> a in attrs && !OperatorOf(a.name).And?
    decreases |attrs|
  {
    if attrs != [] {
      DisabledAttrs(attrs[..|attrs| - 1], a);
      assert attrs == attrs[..|attrs| - 1] + [attrs[|attrs| - 1]];
    }
  }

  lemma {:induction false} NoAndValues(attrs: seq<Attr>, tag: string)
    requires forall i :: 0 <= i < |attrs| ==> !OperatorOf(attrs[i].name).And?
    ensures AndValues(attrs, tag) == {}
    decreases |attrs|
  {
    if attrs != [] {
      NoAndValues(attrs[1..], tag);
    }
  }

  lemma {:induction false} AndValuesHold(
    attrs: seq<Attr>, all: seq<Attr>, tag: string, tags: seq<seq<string>>, v: string)
    requires forall i :: 0 <= i < |attrs| ==> Holds(all, attrs[i], tags)
    requires v in AndValues(attrs, tag)
    ensures HasTag(tags, tag, v)
    decreases |attrs|
  {
    if OperatorOf(attrs[0].name) != And(tag) {
      AndValuesHold(attrs[1..], all, tag, tags, v);
    } else {
      assert Holds(all, attrs[0], tags);
    }
  }

  /** The attributes whose name does not start with `&` are kept, in order, and no
      others. */
  lemma DisablesExactly(attrs: seq<Attr>)
    requires IsObject(attrs)
    ensures IsObject(DisableAndTags(attrs)) && SameOrder(DisableAndTags(attrs), attrs)
    ensures forall a :: a in DisableAndTags(attrs) <==> a in attrs && !("&" <= a.name)
  {
    KeptInOrder(attrs);
    var kept := DisableAndTags(attrs);
    forall a ensures a in kept <==> a in attrs && !("&" <= a.name) {
      DisabledAttrs(attrs, a);
    }
    forall i, j | 0 <= i < j < |kept| ensures kept[i].name != kept[j].name {
      var k, l :| 0 <= k < l < |attrs| && attrs[k] == kept[i] && attrs[l] == kept[j];
    }
  }

  /** What comes first in one list comes first in the other. */
  ghost predicate SameOrder(kept: seq<Attr>, attrs: seq<Attr>) {
    forall i, j :: 0 <= i < j < |kept| ==> FirstIn(attrs, kept[i], kept[j])
  }

  ghost predicate FirstIn(attrs: seq<Attr>, a: Attr, b: Attr) {
    exists k, l :: 0 <= k < l < |attrs| && attrs[k] == a && attrs[l] == b
  }

  lemma {:induction false} KeptInOrder(attrs: seq<Attr>)
    ensures SameOrder(DisableAndTags(attrs), attrs)
    decreases |attrs|
  {
    if attrs != [] {
      var before, last := attrs[..|attrs| - 1], attrs[|attrs| - 1];
      var kept, all := DisableAndTags(before), DisableAndTags(attrs);
      KeptInOrder(before);
      forall i, j | 0 <= i < j < |all| ensures FirstIn(attrs, all[i], all[j]) {
        if j < |kept| {
          assert FirstIn(before, kept[i], kept[j]);
          var k, l :| 0 <= k < l < |before| && before[k] == kept[i] && before[l] == kept[j];
          assert attrs[k] == all[i] && attrs[l] == all[j];
        } else {
          DisabledAttrs(before, kept[i]);
          var k :| 0 <= k < |before| && before[k] == kept[i];
          assert attrs[k] == all[i] && attrs[|before|] == all[j];
        }
      }
    }
  }

  /** Ignoring the draft operator only widens a filter: every event matched with
      AND tags still matches without them. */
  lemma DisablingAndWidens(attrs: seq<Attr>, tags: seq<seq<string>>)
    requires IsObject(attrs) && Meant(attrs, tags)
    ensures Meant(DisableAndTags(attrs), tags)
  {
    DisablesExactly(attrs);
    DeclaredExactly(attrs, tags);
    DeclaredWidens(attrs, tags);
    DeclaredExactly(DisableAndTags(attrs), tags);
  }

  lemma DeclaredWidens(attrs: seq<Attr>, tags: seq<seq<string>>)
    requires Declared(attrs, tags)
    ensures Declared(DisableAndTags(attrs), tags)
  {
    var kept := DisableAndTags(attrs);
    forall i | 0 <= i < |kept| ensures !OperatorOf(kept[i].name).And? && kept[i] in attrs {
      DisabledAttrs(attrs, kept[i]);
    }
    forall i | 0 <= i < |kept| ensures Holds(kept, kept[i], tags) {
      var a := kept[i];
      var k :| 0 <= k < |attrs| && attrs[k] == a;
      assert Holds(attrs, attrs[k], tags);
      if OperatorOf(a.name).Or? {
        var tag := OperatorOf(a.name).tag;
        NoAndValues(kept, tag);
        assert Values(a) - AndValues(kept, tag) == Values(a);
        var rest := Values(a) - AndValues(attrs, tag);
        if rest == {} {
          var v :| v in Values(a);
          AndValuesHold(attrs, attrs, tag, tags, v);
          assert AnyTag(tags, tag, Values(a));
        } else {
          var v :| v in rest && HasTag(tags, tag, v);
          assert AnyTag(tags, tag, Values(a));
        }
      }
    }
  }
}
