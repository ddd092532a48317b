/** The gallery page of dashboard.js: the session table it derives from the
    stored screenshots, the session filter and the two orders, deletion and
    clear-all, the export file names and the package export. The page's
    in-memory copies `allScreenshots`, `allTranscripts` and `sessions` are
    fields of `Gallery`; `confirm` answers are boolean inputs. */
module Dashboard {
  import opened Records
  import opened Storage
  import opened Listing
  import opened ExportNames
  import opened Packaging

  /** `screenshotCount` of a derived session: how many screenshots the filter
      for that session keeps. */
  function CountIn(vals: seq<Screenshot>, sid: Id): nat
  {
    |InSession(vals, Some(sid))|
  }

  /** `Session ${sessionId}`, the name of a derived session. */
  function DerivedName(sid: Id): string
  {
    "Session " + sid
  }

  /** One step of the derivation: a screenshot with a non-empty session id opens
      that session if it is new and counts one more screenshot for it. */
  function Tally(d: Table<Session>, s: Screenshot): (t: Table<Session>)
    ensures d.Valid() ==> t.Valid()
  {
    if !Truthy(s.sessionId) then d
    else
      var sid := s.sessionId.value;
      if sid in d.entries then
        d.Put(sid, d.entries[sid].(screenshotCount := d.entries[sid].screenshotCount + 1))
      else
        d.Put(sid, Session(sid, DerivedName(sid), None, 1))
  }

  /** The `sessions` object `loadData` builds from `Object.values(allScreenshots)`. */
  function Derived(vals: seq<Screenshot>): (t: Table<Session>)
    ensures t.Valid()
  {
    if vals == [] then EmptyTable() else Tally(Derived(vals[..|vals| - 1]), vals[|vals| - 1])
  }

  /** Screenshots carrying session id `sid`. */
  predicate Carries(vals: seq<Screenshot>, sid: Id)
  {
    exists i :: 0 <= i < |vals| && vals[i].sessionId == Some(sid)
  }

  lemma CarriesStep(vals: seq<Screenshot>, sid: Id)
    requires vals != []
    ensures Carries(vals, sid) <==>
              Carries(vals[..|vals| - 1], sid) || vals[|vals| - 1].sessionId == Some(sid)
  {
    var init := vals[..|vals| - 1];
    if Carries(vals, sid) {
      var i :| 0 <= i < |vals| && vals[i].sessionId == Some(sid);
      if i < |init| {
        assert init[i] == vals[i];
      }
    }
    if Carries(init, sid) {
      var i :| 0 <= i < |init| && init[i].sessionId == Some(sid);
      assert vals[i] == init[i];
    }
  }

  lemma CountStep(vals: seq<Screenshot>, sid: Id)
    requires vals != []
    ensures CountIn(vals, sid) ==
              CountIn(vals[..|vals| - 1], sid) + (if vals[|vals| - 1].sessionId == Some(sid) then 1 else 0)
  {
  }

  lemma {:induction false} CountWithoutCarrier(vals: seq<Screenshot>, sid: Id)
    requires !Carries(vals, sid)
    ensures CountIn(vals, sid) == 0
  {
    if vals != [] {
      CarriesStep(vals, sid);
      CountWithoutCarrier(vals[..|vals| - 1], sid);
      CountStep(vals, sid);
    }
  }

  /** A derived session exists exactly for each non-empty session id some
      screenshot carries; it is named after its id, has no creation time and
      counts that session's screenshots. */
  lemma {:induction false} DerivedContents(vals: seq<Screenshot>)
    ensures forall sid :: sid in Derived(vals).entries <==> sid != "" && Carries(vals, sid)
    ensures forall sid :: sid in Derived(vals).entries ==>
              Derived(vals).entries[sid] == Session(sid, DerivedName(sid), None, CountIn(vals, sid))
  {
    if vals != [] {
      var init, last := vals[..|vals| - 1], vals[|vals| - 1];
      DerivedContents(init);
      forall sid
        ensures sid in Derived(vals).entries <==> sid != "" && Carries(vals, sid)
        ensures sid in Derived(vals).entries ==>
                  Derived(vals).entries[sid] == Session(sid, DerivedName(sid), None, CountIn(vals, sid))
      {
        CarriesStep(vals, sid);
        CountStep(vals, sid);
        if !Carries(init, sid) {
          CountWithoutCarrier(init, sid);
        }
      }
    }
  }

  /** The two statements of one `forEach` step, opening and then counting, make one Tally. */
  lemma OpenThenCount(before: Table<Session>, withEntry: Table<Session>, after: Table<Session>, s: Screenshot)
    requires withEntry == if Truthy(s.sessionId) && s.sessionId.value !in before.entries
                       then before.Put(s.sessionId.value, Session(s.sessionId.value, DerivedName(s.sessionId.value), None, 0))
                       else before
    requires Truthy(s.sessionId) ==> s.sessionId.value in withEntry.entries
    requires after == if Truthy(s.sessionId)
                      then withEntry.Put(s.sessionId.value,
                             withEntry.entries[s.sessionId.value].(screenshotCount := withEntry.entries[s.sessionId.value].screenshotCount + 1))
                      else withEntry
    ensures after == Tally(before, s)
  {
    if Truthy(s.sessionId) && s.sessionId.value !in before.entries {
      var sid := s.sessionId.value;
      PutTwice(before, sid, Session(sid, DerivedName(sid), None, 0), Session(sid, DerivedName(sid), None, 1));
    }
  }

  lemma DerivedStep(vals: seq<Screenshot>)
    requires vals != []
    ensures Derived(vals) == Tally(Derived(vals[..|vals| - 1]), vals[|vals| - 1])
  {
  }

  /** One step of that `forEach`: open the screenshot's session with count 0
      when it is new, then increment its count. */
  method OpenAndCount(before: Table<Session>, screenshot: Screenshot) returns (sessions: Table<Session>)
    ensures sessions == Tally(before, screenshot)
  {
    sessions := before;
    if Truthy(screenshot.sessionId) && screenshot.sessionId.value !in sessions.entries {
      var sid := screenshot.sessionId.value;
      sessions := sessions.Put(sid, Session(sid, DerivedName(sid), None, 0));
    }
    ghost var withEntry := sessions;
    if Truthy(screenshot.sessionId) {
      var sid := screenshot.sessionId.value;
      var entry := sessions.entries[sid];
      sessions := sessions.Put(sid, entry.(screenshotCount := entry.screenshotCount + 1));
    }
    OpenThenCount(before, withEntry, sessions, screenshot);
  }

  /** The `forEach` of `loadData`, which opens a session with count 0 and then increments it. */
  method DeriveSessions(vals: seq<Screenshot>) returns (sessions: Table<Session>)
    ensures sessions == Derived(vals)
  {
    sessions := EmptyTable();
    var i := 0;
    while i < |vals|
      invariant 0 <= i <= |vals|
      invariant sessions == Derived(vals[..i])
    {
      sessions := OpenAndCount(sessions, vals[i]);
      DerivedStep(vals[..i + 1]);
      assert vals[..i + 1][..i] == vals[..i];
      i := i + 1;
    }
    assert vals[..i] == vals;
  }

  /** The session table after the stored `currentSession` has replaced the derived entry for its id. */
  function SessionTable(vals: seq<Screenshot>, stored: Option<Session>): (t: Table<Session>)
    ensures t.Valid()
  {
    var d := Derived(vals);
    if stored.Some? then d.Put(stored.value.id, stored.value) else d
  }

  /** The stored session wins for its own id, count included; every other entry is derived. */
  lemma SessionTableContents(vals: seq<Screenshot>, stored: Option<Session>)
    ensures var t := SessionTable(vals, stored);
            forall sid :: sid in t.entries <==>
              (stored.Some? && sid == stored.value.id) ||
              (sid != "" && Carries(vals, sid))
    ensures var t := SessionTable(vals, stored);
            stored.Some? ==> t.entries[stored.value.id] == stored.value
    ensures var t := SessionTable(vals, stored);
            forall sid :: sid in t.entries && !(stored.Some? && sid == stored.value.id) ==>
              t.entries[sid] == Session(sid, DerivedName(sid), None, CountIn(vals, sid))
  {
    DerivedContents(vals);
  }

  /** Every session id a stored screenshot carries has an entry in the rebuilt table. */
  lemma SessionTableCovers(t: Table<Screenshot>, stored: Option<Session>)
    requires t.Valid()
    ensures forall k :: k in t.entries && Truthy(t.entries[k].sessionId) ==>
              t.entries[k].sessionId.value in SessionTable(t.Values(), stored).entries
  {
    var vals := t.Values();
    SessionTableContents(vals, stored);
    forall k | k in t.entries && Truthy(t.entries[k].sessionId)
      ensures t.entries[k].sessionId.value in SessionTable(vals, stored).entries
    {
      var i :| 0 <= i < |t.keys| && t.keys[i] == k;
      assert vals[i].sessionId == Some(t.entries[k].sessionId.value);
    }
  }

  /** After a clear-all only the stored current session, if any, is left in the table. */
  lemma ClearedTable(stored: Option<Session>)
    ensures var t := SessionTable([], stored);
            forall sid :: sid in t.entries <==> stored.Some? && sid == stored.value.id
  {
    SessionTableContents([], stored);
  }

  /** The selector's value: '' (All Sessions) keeps everything. */
  function FilterId(filter: string): (r: Option<Id>)
    ensures r.None? <==> filter == ""
    ensures r.Some? ==> r.value == filter
  {
    if filter == "" then None else Some(filter)
  }

  /** The grid of `renderScreenshots`: newest first. */
  function DisplayOrder(vals: seq<Screenshot>, filter: string): (r: seq<Screenshot>)
    ensures Ordered(r, true)
    ensures multiset(r) == multiset(InSession(vals, FilterId(filter)))
  {
    SortByTime(InSession(vals, FilterId(filter)), true)
  }

  /** `getFilteredData`, the order every export uses: oldest first. */
  function FilteredData(vals: seq<Screenshot>, filter: string): (r: seq<Screenshot>)
    ensures Ordered(r, false)
    ensures multiset(r) == multiset(InSession(vals, FilterId(filter)))
  {
    SortByTime(InSession(vals, FilterId(filter)), false)
  }

  /** Both listings hold each screenshot of the filtered session as often as the
      store does and nothing else, the grid newest first and the export oldest
      first; an empty filter keeps all of them. */
  lemma ListingsContents(vals: seq<Screenshot>, filter: string)
    ensures forall s :: multiset(DisplayOrder(vals, filter))[s] ==
              if filter == "" || s.sessionId == Some(filter) then multiset(vals)[s] else 0
    ensures multiset(FilteredData(vals, filter)) == multiset(DisplayOrder(vals, filter))
    ensures Ordered(DisplayOrder(vals, filter), true)
    ensures Ordered(FilteredData(vals, filter), false)
    ensures filter == "" ==> multiset(FilteredData(vals, filter)) == multiset(vals)
  {
    InSessionContents(vals, FilterId(filter));
  }

  /** The session name an export is titled with: 'All Sessions' without a filter,
      the filtered session's name when it is in the table, undefined otherwise. */
  function SessionLabel(filter: string, sessions: Table<Session>): (r: Option<string>)
    ensures filter == "" ==> r == Some("All Sessions")
    ensures filter != "" ==> (r.Some? <==> filter in sessions.entries)
    ensures filter != "" && filter in sessions.entries ==> r == Some(sessions.entries[filter].name)
  {
    if filter == "" then Some("All Sessions")
    else if filter in sessions.entries then Some(sessions.entries[filter].name)
    else None
  }

  /** The number in an export heading: the sequence number, or the position when it is 0. */
  function EntryNumber(s: Screenshot, index: nat): (r: nat)
    ensures r >= 1
    ensures s.sequenceNumber != 0 ==> r == s.sequenceNumber
    ensures s.sequenceNumber == 0 ==> r == index + 1
  {
    if s.sequenceNumber != 0 then s.sequenceNumber else index + 1
  }

  /** When the filter keeps some screenshot and every screenshot's session is
      in the table, the filtered session is in the table, so its name is defined. */
  lemma FilteredSessionKnown(t: Table<Screenshot>, sessions: Table<Session>, filter: string)
    requires forall i :: 0 <= i < |t.keys| ==> t.keys[i] in t.entries
    requires forall k :: k in t.entries && Truthy(t.entries[k].sessionId) ==>
               t.entries[k].sessionId.value in sessions.entries
    ensures filter != "" && |FilteredData(t.Values(), filter)| > 0 ==> filter in sessions.entries
  {
    var vals := t.Values();
    var data := FilteredData(vals, filter);
    if filter != "" && |data| > 0 {
      var kept := InSession(vals, Some(filter));
      assert data[0] in multiset(data);
      assert data[0] in kept;
      InSessionContents(vals, Some(filter));
      var i :| 0 <= i < |vals| && vals[i] == data[0];
      assert t.entries[t.keys[i]] == data[0];
    }
  }

  class Gallery {
    const store: LocalStore
    var allScreenshots: Table<Screenshot>
    var allTranscripts: Table<Transcript>
    var sessions: Table<Session>
    var currentSessionFilter: string

    /** The copies are well formed and every screenshot's session is in the table. */
    ghost predicate Valid()
      reads this, store
    {
      && store.Valid()
      && allScreenshots.Valid() && ScreenshotsKeyed(allScreenshots)
      && allTranscripts.Valid() && TranscriptsKeyed(allTranscripts)
      && sessions.Valid()
      && (forall k :: k in allScreenshots.entries && Truthy(allScreenshots.entries[k].sessionId) ==>
            allScreenshots.entries[k].sessionId.value in sessions.entries)
    }

    constructor (store: LocalStore)
      requires store.Valid()
      ensures Valid() && this.store == store
      ensures allScreenshots == EmptyTable() && allTranscripts == EmptyTable()
      ensures sessions == EmptyTable() && currentSessionFilter == ""
    {
      this.store := store;
      allScreenshots := EmptyTable();
      allTranscripts := EmptyTable();
      sessions := EmptyTable();
      currentSessionFilter := "";
    }

    /** `loadData`: copies both tables and rebuilds the session table. */
    method LoadData()
      requires store.Valid()
      modifies this`allScreenshots, this`allTranscripts, this`sessions
      ensures Valid()
      ensures allScreenshots == store.screenshots && allTranscripts == store.transcripts
      ensures sessions == SessionTable(store.screenshots.Values(), store.currentSession)
    {
      allScreenshots := store.screenshots;
      allTranscripts := store.transcripts;
      var vals := allScreenshots.Values();
      sessions := DeriveSessions(vals);
      if store.currentSession.Some? {
        sessions := sessions.Put(store.currentSession.value.id, store.currentSession.value);
      }
      SessionTableCovers(allScreenshots, store.currentSession);
    }

    /** The selector's change handler. */
    method SetFilter(value: string)
      modifies this`currentSessionFilter
      ensures currentSessionFilter == value
    {
      currentSessionFilter := value;
    }

    /** `deleteScreenshot`: after confirmation the page's copy without `id` is
        written back and everything is reloaded. */
    method DeleteScreenshot(id: Id, confirmed: bool)
      requires Valid()
      modifies this`allScreenshots, this`allTranscripts, this`sessions, store`screenshots
      ensures Valid()
      ensures !confirmed ==> unchanged(this) && unchanged(store)
      ensures confirmed ==>
                && store.screenshots == old(allScreenshots).Delete(id)
                && store.transcripts == old(store.transcripts)
                && store.currentSession == old(store.currentSession)
                && allScreenshots == store.screenshots && allTranscripts == store.transcripts
                && sessions == SessionTable(store.screenshots.Values(), store.currentSession)
    {
      if !confirmed {
        return;
      }
      allScreenshots := allScreenshots.Delete(id);
      assert forall k :: k in allScreenshots.entries ==> allScreenshots.entries[k] == old(allScreenshots).entries[k];
      store.screenshots := allScreenshots;
      LoadData();
    }

    /** The clear-all button: removes the `screenshots` and `transcripts` keys and
        reloads; the stored current session stays. */
    method ClearAll(confirmed: bool)
      requires Valid()
      modifies this`allScreenshots, this`allTranscripts, this`sessions, store`screenshots, store`transcripts
      ensures Valid()
      ensures !confirmed ==> unchanged(this) && unchanged(store)
      ensures confirmed ==>
                && store.screenshots == EmptyTable() && store.transcripts == EmptyTable()
                && store.currentSession == old(store.currentSession)
                && allScreenshots == EmptyTable() && allTranscripts == EmptyTable()
                && sessions == SessionTable([], store.currentSession)
    {
      if !confirmed {
        return;
      }
      store.screenshots := EmptyTable();
      store.transcripts := EmptyTable();
      LoadData();
    }

    /** The export-package button, given the answer to the compression question
        and the clock. With screenshots to export it always yields a package. */
    method ExportAsPackage(compress: bool, now: nat) returns (p: PackageExport)
      requires Valid()
      ensures var data := FilteredData(allScreenshots.Values(), currentSessionFilter);
              && (p.NothingToExport? <==> |data| == 0)
              && (p.Package? <==> |data| > 0)
              && (p.Package? ==>
                    && ExportFileName(Manifest, SessionLabel(currentSessionFilter, sessions), now) == Some(p.manifestName)
                    && p.imageFormat == ImageFormat(compress)
                    && |p.entries| == |data| && |p.downloads| == |data|
                    && (forall i :: 0 <= i < |data| ==>
                          && p.entries[i] == EntryFor(data[i], i, Extension(compress))
                          && p.entries[i].number == i + 1
                          && p.entries[i].fileName == PackageFileName(i + 1, Extension(compress))
                          && p.entries[i].timestamp == data[i].timestamp
                          && p.downloads[i].fileName == p.entries[i].fileName
                          && p.downloads[i].imageData == data[i].imageData
                          && p.downloads[i].compress == compress))
    {
      var data := FilteredData(allScreenshots.Values(), currentSessionFilter);
      var sessionName := SessionLabel(currentSessionFilter, sessions);
      FilteredSessionKnown(allScreenshots, sessions, currentSessionFilter);
      p := BuildPackage(data, sessionName, compress, now);
    }
  }
}
