/**
 The full-text index beside the events table (`ActivitySearcher`): the index
 rows, the shadow table of indexed ids, and what populate, refresh, prune and
 search do while the daemon inserts, annotates and deletes events in between.
 */
module SearchIndex {
  import opened Common

  /** What is indexed of an annotation: what_doing, app, location. */
  datatype Doc = Doc(whatDoing: string, app: string, location: string)

  /** `doc` is the parsed annotation, present once the annotation is completed. */
  datatype Event = Event(timestamp: string, doc: Option<Doc>)

  datatype FtsRow = FtsRow(eventId: string, doc: Doc)

  /** The two tables of the index, and the events table they serve. */
  datatype Tables = Tables(events: map<string, Event>, fts: map<int, FtsRow>, ids: map<string, int>)

  // ------------------------------------------------------------ the daemon

  /** What the daemon may have done meanwhile, `used` being every id it ever gave
      an event: new events have new ids, an annotation is written once. */
  predicate DaemonStep(before: map<string, Event>, used: set<string>, after: map<string, Event>, used': set<string>) {
    && used <= used' && after.Keys <= used'
    && forall e | e in after && e in used :: e in before && (before[e] == after[e] || (before[e].doc.None? && before[e].timestamp == after[e].timestamp))
  }

  // --------------------------------------------------------------- invariant

  /** The shadow table is a bijection onto the index rows, each row is of the event
      it is filed under, was made from its annotation, and of an id given out. */
  ghost predicate Agrees(t: Tables, used: set<string>) {
    && t.events.Keys <= used
    && (forall e | e in t.ids :: t.ids[e] in t.fts && t.fts[t.ids[e]].eventId == e)
    && (forall r | r in t.fts :: t.fts[r].eventId in t.ids && t.ids[t.fts[r].eventId] == r)
    && (forall e | e in t.ids :: e in used)
    && (forall e | e in t.ids && e in t.events :: t.events[e].doc == Some(t.fts[t.ids[e]].doc))
  }

  /** No two index rows are of one event. */
  lemma IndexedOnce(t: Tables, used: set<string>, r: int, q: int)
    requires Agrees(t, used) && r in t.fts && q in t.fts && t.fts[r].eventId == t.fts[q].eventId
    ensures r == q
  {
  }

  /** What other connections may have done meanwhile: the daemon as above, and a
      request to forget the events `gone`, which deletes them with their index and
      shadow rows in one transaction. */
  predicate OthersStep(t: Tables, used: set<string>, after: Tables, used': set<string>, gone: set<string>) {
    && DaemonStep(t.events, used, after.events, used')
    && gone <= used' && gone !! after.events.Keys
    && after.ids == t.ids - gone && after.fts == t.fts - RowidsOf(t, gone)
  }

  function RowidsOf(t: Tables, gone: set<string>): set<int> { set e | e in gone && e in t.ids :: t.ids[e] }

  lemma OthersKeep(t: Tables, used: set<string>, after: Tables, used': set<string>, gone: set<string>)
    requires Agrees(t, used) && OthersStep(t, used, after, used', gone)
    ensures Agrees(after, used')
  {
    assert forall r | r in t.fts :: r in RowidsOf(t, gone) <==> t.fts[r].eventId in gone;
  }

  // ------------------------------------------------------------- the searcher

  ghost function Annotated(events: map<string, Event>): set<string> {
    set e | e in events && events[e].doc.Some?
  }

  /** The events the populate query returns: annotated and not in the shadow table. */
  function Unindexed(t: Tables): map<string, Doc> {
    map e | e in t.events && t.events[e].doc.Some? && e !in t.ids :: t.events[e].doc.value
  }

  /** The shadow rows the prune query returns: their event is gone. */
  function Gone(t: Tables): set<string> { set e | e in t.ids && e !in t.events }

  /** And the rowids it returns with them. */
  function GoneRowids(t: Tables): set<int> { set e | e in t.ids && e !in t.events :: t.ids[e] }

  /** `search` joins the index on the events table: an id with its row's document,
      for every live event whose row matches. */
  function Hits(t: Tables, matches: Doc -> bool): map<string, Doc>
    requires forall e | e in t.ids :: t.ids[e] in t.fts
  {
    map e | e in t.ids && e in t.events && matches(t.fts[t.ids[e]].doc) :: t.fts[t.ids[e]].doc
  }

  /** The same question answered by a scan of the events. */
  function Scan(events: map<string, Event>, matches: Doc -> bool): map<string, Doc> {
    map e | e in events && events[e].doc.Some? && matches(events[e].doc.value) :: events[e].doc.value
  }

  /** Whatever the index has missed, a hit is a live event with its own annotation. */
  lemma HitsAreLive(t: Tables, used: set<string>, matches: Doc -> bool)
    requires Agrees(t, used)
    ensures forall e | e in Hits(t, matches) :: e in Scan(t.events, matches) && Hits(t, matches)[e] == Scan(t.events, matches)[e]
  {
  }

  /** Search equals the scan, whatever the query, if and only if every live
      annotated event is indexed. */
  lemma SearchIsScanIff(t: Tables, used: set<string>)
    requires Agrees(t, used)
    ensures Annotated(t.events) <= t.ids.Keys <==> forall matches: Doc -> bool :: Hits(t, matches) == Scan(t.events, matches)
  {
    if Annotated(t.events) <= t.ids.Keys {
      forall matches: Doc -> bool
        ensures Hits(t, matches) == Scan(t.events, matches)
      {
        assert forall e | e in Scan(t.events, matches) :: e in Annotated(t.events);
      }
    } else {
      var e :| e in Annotated(t.events) && e !in t.ids;
      var all := (d: Doc) => true;
      assert e in Scan(t.events, all) && e !in Hits(t, all);
    }
  }

  /** One event indexed under a free rowid. */
  lemma IndexOne(t: Tables, used: set<string>, e: string, r: int, doc: Doc)
    requires Agrees(t, used) && r !in t.fts && e !in t.ids && e in used
    requires e in t.events ==> t.events[e].doc == Some(doc)
    ensures Agrees(t.(fts := t.fts[r := FtsRow(e, doc)], ids := t.ids[e := r]), used)
  {
  }

  /** What the populate query read stays true of the events that still exist. */
  lemma ReadStaysTrue(t: Tables, used: set<string>, after: Tables, used': set<string>, gone: set<string>)
    requires Agrees(t, used) && OthersStep(t, used, after, used', gone)
    ensures forall e | e in Unindexed(t) ::
              e !in after.ids && e in used' && (e in after.events ==> after.events[e].doc == Some(Unindexed(t)[e]))
    ensures t.ids.Keys + Unindexed(t).Keys == t.ids.Keys + Annotated(t.events)
    ensures Annotated(t.events) <= t.ids.Keys + Unindexed(t).Keys
  {
  }

  lemma OneLess(indexed: set<string>, rest: map<string, Doc>, e: string)
    requires e in rest
    ensures |rest - {e}| == |rest| - 1
    ensures indexed + {e} + (rest - {e}).Keys == indexed + rest.Keys
  {
    assert (rest - {e}).Keys == rest.Keys - {e};
  }

  /** Deleting the entries the prune read, by rowid, removes theirs and no other's,
      also of an index that has lost rows since. */
  lemma PruneKeeps(t: Tables, used: set<string>, after: Tables, used': set<string>, gone: set<string>)
    requires Agrees(t, used) && OthersStep(t, used, after, used', gone)
    ensures Agrees(Tables(after.events, after.fts - GoneRowids(t), after.ids - Gone(t)), used')
  {
    OthersKeep(t, used, after, used', gone);
    assert forall r | r in t.fts :: r in GoneRowids(t) <==> t.fts[r].eventId in Gone(t);
  }

  lemma {:induction false} FreeExists(s: set<int>)
    ensures exists r :: r !in s
  {
    var m := Above(s);
    assert m !in s;
  }

  lemma {:induction false} Above(s: set<int>) returns (m: int)
    ensures forall x | x in s :: x < m
    decreases |s|
  {
    if x :| x in s {
      var n := Above(s - {x});
      m := if n > x then n else x + 1;
      assert forall y | y in s :: y == x || y in s - {x};
    } else {
      m := 0;
    }
  }

  class ActivitySearcher {
    var events: map<string, Event>
    var fts: map<int, FtsRow>
    var ids: map<string, int>
    var ftsReady: bool
    var used: set<string>
    /** The events other connections have made it forget. */
    var forgotten: set<string>

    function View(): Tables
      reads this
    {
      Tables(events, fts, ids)
    }

    ghost predicate Valid()
      reads this
    {
      Agrees(View(), used) && forgotten <= used && forgotten !! events.Keys
    }

    constructor (events: map<string, Event>)
      ensures Valid() && this.events == events && ids == map[] && !ftsReady
    {
      this.events, fts, ids, ftsReady := events, map[], map[], false;
      used, forgotten := events.Keys, {};
    }

    /** Others work on their own connections, between any two statements of this one. */
    method Meanwhile() returns (ghost gone: set<string>)
      requires Valid()
      modifies this`events, this`used, this`fts, this`ids, this`forgotten
      ensures Valid() && OthersStep(old(View()), old(used), View(), used, gone)
      ensures forgotten == old(forgotten) + gone
    {
      assert View().ids - {} == View().ids && View().fts - RowidsOf(View(), {}) == View().fts;
      assert OthersStep(View(), used, View(), used, {});
      var after, used', lost :| OthersStep(View(), used, after, used', lost);
      OthersKeep(View(), used, after, used', lost);
      StillForgotten(forgotten, View(), used, after, used', lost);
      events, fts, ids, used, forgotten := after.events, after.fts, after.ids, used', forgotten + lost;
      gone := lost;
    }

    static lemma StillForgotten(forgotten: set<string>, t: Tables, used: set<string>, after: Tables, used': set<string>, gone: set<string>)
      requires forgotten <= used && forgotten !! t.events.Keys && OthersStep(t, used, after, used', gone)
      ensures forgotten + gone <= used' && forgotten + gone !! after.events.Keys
    {
    }

    /** A rowid SQLite picks: any that is free, also one a pruned row had. */
    method FreeRowid() returns (r: int)
      ensures r !in fts
    {
      FreeExists(fts.Keys);
      r :| r !in fts;
    }

    /** One event of the insert transaction: an index row and its shadow row. */
    method IndexRow(e: string, doc: Doc)
      requires Valid() && e !in ids && e in used && (e in events ==> events[e].doc == Some(doc))
      modifies this`fts, this`ids
      ensures Valid() && ids.Keys == old(ids).Keys + {e}
    {
      hide Agrees;
      var r := FreeRowid();
      IndexOne(View(), used, e, r, doc);
      fts := fts[r := FtsRow(e, doc)];
      ids := ids[e := r];
    }

    /** The rest of a read is still to index, and nothing else. */
    ghost predicate Pending(rest: map<string, Doc>)
      reads this
    {
      forall e | e in rest :: e !in ids && e in used && (e in events ==> events[e].doc == Some(rest[e]))
    }

    method IndexRows(rows: map<string, Doc>) returns (added: nat)
      requires Valid() && Pending(rows)
      modifies this`fts, this`ids
      ensures Valid() && added == |rows|
      ensures ids.Keys == old(ids).Keys + rows.Keys
    {
      hide Agrees;
      added := 0;
      var rest := rows;
      while rest != map[]
        invariant Valid() && Pending(rest)
        invariant ids.Keys + rest.Keys == old(ids).Keys + rows.Keys
        invariant added + |rest| == |rows|
        decreases |rest|
      {
        var e :| e in rest;
        ghost var before := ids.Keys;
        IndexRow(e, rest[e]);
        OneLess(before, rest, e);
        rest := rest - {e};
        added := added + 1;
      }
    }

    /** `_populate_fts_index`: read the unindexed events, then index them; others may
        delete or forget some of them, or annotate others, in between. */
    method PopulateFtsIndex() returns (added: nat, ghost read: map<string, Event>, ghost usedThen: set<string>)
      requires Valid()
      modifies this`events, this`used, this`fts, this`ids, this`forgotten
      ensures Valid() && old(forgotten) <= forgotten
      ensures read == old(events) && usedThen == old(used) && DaemonStep(read, usedThen, events, used)
      ensures Annotated(read) - forgotten <= ids.Keys
      ensures old(ids).Keys - forgotten <= ids.Keys <= old(ids).Keys + Annotated(read)
    {
      hide Agrees;
      read, usedThen := events, used;
      ghost var before := View();
      var rows := Unindexed(View());
      ghost var gone := Meanwhile();
      ReadStaysTrue(before, usedThen, View(), used, gone);
      added := IndexRows(rows);
    }

    /** Once per instance: index what is not indexed yet. */
    method EnsureFtsIndex()
      requires Valid()
      modifies this
      ensures Valid() && ftsReady && DaemonStep(old(events), old(used), events, used) && old(forgotten) <= forgotten
      ensures old(ids).Keys - forgotten <= ids.Keys
      ensures !old(ftsReady) ==> Annotated(old(events)) - forgotten <= ids.Keys
      ensures old(ftsReady) ==> View() == old(View()) && used == old(used) && forgotten == old(forgotten)
    {
      hide Agrees;
      ValidStep();
      if !ftsReady {
        var added, _, _ := PopulateFtsIndex();
        ftsReady := true;
      }
    }

    lemma ValidStep()
      requires Valid()
      ensures DaemonStep(events, used, events, used)
    {
    }

    /** `refresh_index`.  `read` are the events as its query saw them. */
    method RefreshIndex() returns (added: nat, ghost read: map<string, Event>, ghost usedThen: set<string>)
      requires Valid()
      modifies this
      ensures Valid() && ftsReady && DaemonStep(read, usedThen, events, used) && old(forgotten) <= forgotten
      ensures DaemonStep(old(events), old(used), read, usedThen)
      ensures Annotated(read) - forgotten <= ids.Keys
    {
      hide Agrees;
      EnsureFtsIndex();
      added, read, usedThen := PopulateFtsIndex();
    }

    /** `prune_index`: read the shadow rows whose event is gone, then delete them and
        their index rows by rowid. */
    method PruneIndex() returns (removed: nat, ghost read: map<string, Event>, ghost usedThen: set<string>)
      requires Valid()
      modifies this
      ensures Valid() && ftsReady && DaemonStep(read, usedThen, events, used) && old(forgotten) <= forgotten
      ensures DaemonStep(old(events), old(used), read, usedThen)
      ensures ids.Keys <= read.Keys
      ensures old(ftsReady) ==> read == old(events)
      ensures old(ftsReady) ==> old(ids).Keys * read.Keys - forgotten <= ids.Keys <= old(ids).Keys * read.Keys
    {
      hide Agrees;
      EnsureFtsIndex();
      read, usedThen := events, used;
      var gone, rowids := Gone(View()), GoneRowids(View());
      removed := |gone|;
      ghost var before := View();
      ghost var forgottenNow := Meanwhile();
      PruneKeeps(before, usedThen, View(), used, forgottenNow);
      fts := fts - rowids;
      ids := ids - gone;
    }

    /** `search`, before ranking and the limit.  The first search of an instance finds
        every matching event annotated before it, any other every one indexed before it. */
    method Search(matches: Doc -> bool) returns (hits: map<string, Doc>)
      requires Valid()
      modifies this
      ensures Valid() && hits == Hits(View(), matches)
      ensures forall e | e in hits :: e in events && events[e].doc == Some(hits[e]) && matches(hits[e])
      ensures forall e | (if old(ftsReady) then e in old(ids) else e in old(events) && old(events)[e].doc.Some?)
                && e in events && events[e].doc.Some? && matches(events[e].doc.value) :: e in hits
    {
      EnsureFtsIndex();
      HitsAreLive(View(), used, matches);
      hits := Hits(View(), matches);
    }

    /** A refresh and a prune, others acting in between too.  The index then holds every
        event annotated by the refresh's read that lived to the prune's, but for those
        forgotten, and only events alive at the prune's read.  When others did nothing
        from the refresh's read on, it holds exactly the live annotated events, and any
        search equals the scan. */
    method Maintain() returns (ghost refreshed: map<string, Event>, ghost pruned: map<string, Event>)
      requires Valid()
      modifies this
      ensures Valid() && Annotated(refreshed) * pruned.Keys - forgotten <= ids.Keys <= pruned.Keys
      ensures refreshed == pruned == events ==>
                ids.Keys == Annotated(events) && forall matches: Doc -> bool :: Hits(View(), matches) == Scan(events, matches)
    {
      ghost var u, v, gone;
      var added, removed;
      added, refreshed, u := RefreshIndex();
      gone := Meanwhile();
      removed, pruned, v := PruneIndex();
      if refreshed == pruned == events {
        assert ids.Keys <= Annotated(events) by {
          assert forall e | e in ids :: e in events && events[e].doc.Some?;
        }
        SearchIsScanIff(View(), used);
      }
    }
  }
}
