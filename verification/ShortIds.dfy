/** A create looked up by a shortened id. */
module ShortIds {
  import opened Text
  import opened Events
  import opened EventLists
  import opened Moderation
  import opened ReplayOrder
  import opened GroupActions
  import opened Traces
  import opened SmallStore

  /** A create, and a deletion of its group whose one target is a proper prefix
      of the create's id only. */
  ghost predicate ShortensId(create: Event, deletion: Event) {
    && Sent(create, CREATE_GROUP, "g") && Sent(deletion, DELETE_EVENT, "g") && create.pubkey == deletion.pubkey
    && WellFormed([create, deletion])
    && |deletion.tags| == 2 && deletion.tags[0] == ["h", "g"] && |deletion.tags[1]| == 2 && deletion.tags[1][0] == "e"
    && |deletion.tags[1][1]| < ID_CHARS && Prefixes(deletion.tags[1][1], create.id)
    && !Prefixes(deletion.tags[1][1], deletion.id)
  }

  lemma ShortenedFinds(create: Event, deletion: Event)
    requires ShortensId(create, deletion)
    ensures
      var stored := [create, deletion];
      PrefixOnly(stored, deletion) && Uncreates(stored, deletion) == {"g"} && DeletedBy(stored, deletion) == {}
  {
    var stored, target := [create, deletion], deletion.tags[1][1];
    assert |stored[0].id| == ID_CHARS && |stored[1].id| == ID_CHARS;
    LookUpIsOldest(stored, target, stored[0]);
    assert LookUp(stored, target) == Some(create);
    assert FindsAt(stored, deletion, 1);
    assert |Lower(target)| < ID_CHARS;
    assert !Names(deletion.tags, create.id) && !Names(deletion.tags, deletion.id);
  }

  lemma ShortenedReplay(w: World<Groups>, create: Event, deletion: Event)
    requires IsFirst(w) && Sent(create, CREATE_GROUP, "g") && Sent(deletion, DELETE_EVENT, "g")
    requires create.pubkey == deletion.pubkey
    ensures Replay(w, [create, deletion]).accepted == [create, deletion]
  {
    SecondAt(w, create, deletion, "g");
    var s1 := Begun(create, "g");
    AdminAccepted(w, s1, deletion, "g");
    QuietPrepared(w, [create, deletion]);
  }

  lemma SweepsCreate(create: Event, deletion: Event)
    requires ShortensId(create, deletion)
    ensures
      var stored := [create, deletion];
      Without(stored, Recreates(stored, "g")) == [deletion]
  {
    var stored := [create, deletion];
    assert RecreateOf(stored[0], "g") && !RecreateOf(stored[1], "g");
    WithoutFirst(create, deletion, Recreates(stored, "g"));
  }

  /** An action that removes nothing. */
  lemma RemovesNothing<G>(w: World<G>, stored: seq<Event>, e: Event)
    requires UniqueIds(stored) && e in Accepts(w, stored) && IsAction(e) && RemovedBy(stored, e) == {}
    ensures
      var t := Acted(Begin(stored), e);
      Lawful(w, t) && Now(t) == stored && Uncreated(t) == Uncreates(stored, e)
  {
    WithoutNothing(stored, {});
    assert {} + Uncreates(stored, e) == Uncreates(stored, e);
  }

  lemma ShortenedIsAccepted(w: World<Groups>, create: Event, deletion: Event)
    requires IsFirst(w) && ShortensId(create, deletion)
    ensures deletion in Accepts(w, [create, deletion])
  {
    AllModerations([create, deletion]);
    ShortenedReplay(w, create, deletion);
    assert Accepts(w, [create, deletion])[1] == deletion;
  }

  lemma ShortenedActs(w: World<Groups>, create: Event, deletion: Event)
    requires IsFirst(w) && ShortensId(create, deletion)
    ensures
      var t := Acted(Begin([create, deletion]), deletion);
      Lawful(w, t) && Now(t) == [create, deletion] && Uncreated(t) == {"g"}
  {
    ShortenedFinds(create, deletion);
    ShortenedIsAccepted(w, create, deletion);
    RemovesNothing(w, [create, deletion], deletion);
  }

  /** A kind:9005 naming a shortened id deletes nothing, and the group's create
      is swept out all the same. */
  lemma ShortenedIdSweeps(w: World<Groups>, create: Event, deletion: Event)
    requires IsFirst(w) && ShortensId(create, deletion) && Sorted(w.arrived, [create, deletion])
    ensures
      var stored := [create, deletion];
      var t := Swept(Acted(Begin(stored), deletion), "g");
      && Lawful(w, t) && PrefixOnly(stored, deletion) && Now(t.before) == stored && Now(t) == [deletion]
  {
    ShortenedFinds(create, deletion);
    ShortenedActs(w, create, deletion);
    SweepsCreate(create, deletion);
  }

  function FullId(c: char): string { seq(ID_CHARS, i => c) }

  lemma SuchShortenedIds()
    ensures
      var create := Event(FullId('a'), "alice", 1, CREATE_GROUP, [["h", "g"]], "", "");
      var deletion := Event(FullId('b'), "alice", 2, DELETE_EVENT, [["h", "g"], ["e", "aa"]], "", "");
      ShortensId(create, deletion) && Sorted(map[], [create, deletion])
  {
    assert FullId('a')[0] != FullId('b')[0];
    assert Lower(FullId('a')) == FullId('a') && Lower(FullId('b')) == FullId('b');
    assert FullId('a')[..2] == "aa" && FullId('b')[..2] == "bb";
    assert Lower("aa")[0] != Lower("bb")[0];
  }
}
