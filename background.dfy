/** The background coordinator: the message handler of background.js with its
    four module-level variables, the storage-space guard and the capture
    routine. Platform calls become inputs: the clock, the formatted date, the
    store's usage, the active tab and the captured image arrive in an Env. */
module Background {
  import opened Records
  import opened Storage

  /** The quota used when `chrome.storage.local.QUOTA_BYTES` is missing. */
  const DefaultQuota: nat := 5242880

  /** Above this percentage of the quota a capture is refused. */
  const NearlyFullPercent: nat := 90

  /** What the platform supplies while one message is handled. */
  datatype Env = Env(
    now: nat,                 // Date.now()
    localeNow: string,        // new Date().toLocaleString()
    bytesInUse: nat,          // chrome.storage.local.getBytesInUse
    quotaBytes: nat,          // chrome.storage.local.QUOTA_BYTES, 0 when missing
    activeTab: Option<Tab>,   // first tab of chrome.tabs.query({active, currentWindow})
    imageData: string)        // chrome.tabs.captureVisibleTab

  function EffectiveQuota(quotaBytes: nat): (q: nat)
    ensures q > 0
    ensures quotaBytes == 0 ==> q == DefaultQuota
    ensures quotaBytes != 0 ==> q == quotaBytes
  {
    if quotaBytes == 0 then DefaultQuota else quotaBytes
  }

  /** `percentUsed > 90` with percentUsed = bytesInUse / quota * 100, computed exactly. */
  predicate NearlyFull(bytesInUse: nat, quotaBytes: nat)
  {
    bytesInUse * 100 > NearlyFullPercent * EffectiveQuota(quotaBytes)
  }

  /** The percentage the refusal reports agrees with the test: at least 90 when
      a capture is refused, at most 90 when it is let through. */
  lemma ReportedPercent(bytesInUse: nat, quotaBytes: nat)
    ensures NearlyFull(bytesInUse, quotaBytes) ==> RoundedPercent(bytesInUse, EffectiveQuota(quotaBytes)) >= 90
    ensures !NearlyFull(bytesInUse, quotaBytes) ==> RoundedPercent(bytesInUse, EffectiveQuota(quotaBytes)) <= 90
  {
    var q := EffectiveQuota(quotaBytes);
    var x := 200 * bytesInUse + q;
    if NearlyFull(bytesInUse, quotaBytes) {
      assert x >= 90 * (2 * q);
      DivAtLeast(x, 2 * q, 90);
    } else {
      assert x < 91 * (2 * q);
      DivBelow(x, 2 * q, 91);
    }
  }

  lemma DivAtLeast(x: nat, d: nat, k: nat)
    requires d > 0 && x >= k * d
    ensures x / d >= k
  {
    var q := x / d;
    assert x < d * (q + 1);
    MulMonotone(k, q + 1, d);
  }

  /** Contrapositive of monotonicity: `d * a < d * b` only when `a < b`. */
  lemma MulMonotone(a: nat, b: nat, d: nat)
    requires d * a < d * b
    ensures a < b
  {
  }

  lemma DivBelow(x: nat, d: nat, k: nat)
    requires d > 0 && x < k * d
    ensures x / d < k
  {
  }

  /** The tab a capture uses: the given one if it names a window, else the active tab. */
  function CaptureTarget(tab: Option<Tab>, activeTab: Option<Tab>): (t: Option<Tab>)
    ensures tab.Some? && tab.value.windowId != 0 ==> t == tab
    ensures !(tab.Some? && tab.value.windowId != 0) ==> t == activeTab
  {
    if tab.Some? && tab.value.windowId != 0 then tab else activeTab
  }

  /** A screenshot belongs to a transcript that started at `startTime` in session `sid`. */
  predicate Associated(s: Screenshot, sid: Option<Id>, startTime: nat)
    ensures Associated(s, sid, startTime) ==> s.timestamp >= startTime
    ensures s.sessionId != sid ==> !Associated(s, sid, startTime)
  {
    s.sessionId == sid && s.timestamp >= startTime
  }

  /** `Object.values(screenshots).filter(...).map(s => s.id)`. */
  function AssociatedIds(shots: seq<Screenshot>, sid: Option<Id>, startTime: nat): (ids: seq<Id>)
    ensures |ids| <= |shots|
  {
    if shots == [] then []
    else
      (if Associated(shots[0], sid, startTime) then [shots[0].id] else [])
      + AssociatedIds(shots[1..], sid, startTime)
  }

  lemma {:induction false} AssociatedIdsMembers(shots: seq<Screenshot>, sid: Option<Id>, startTime: nat, id: Id)
    ensures id in AssociatedIds(shots, sid, startTime) <==>
              exists i :: 0 <= i < |shots| && shots[i].id == id && Associated(shots[i], sid, startTime)
  {
    if shots != [] {
      AssociatedIdsMembers(shots[1..], sid, startTime, id);
      if id in AssociatedIds(shots[1..], sid, startTime) {
        var i :| 0 <= i < |shots[1..]| && shots[1..][i].id == id && Associated(shots[1..][i], sid, startTime);
        assert shots[i + 1] == shots[1..][i];
      }
      if exists i :: 0 <= i < |shots| && shots[i].id == id && Associated(shots[i], sid, startTime) {
        var i :| 0 <= i < |shots| && shots[i].id == id && Associated(shots[i], sid, startTime);
        if i > 0 {
          assert shots[1..][i - 1] == shots[i];
        }
      }
    }
  }

  /** Over a keyed table, the filter-and-map lists exactly the ids of the stored
      screenshots of the session taken at or after the start; there is no upper bound. */
  lemma AssociationIsExact(t: Table<Screenshot>, sid: Option<Id>, startTime: nat, id: Id)
    requires t.Valid() && ScreenshotsKeyed(t)
    ensures id in AssociatedIds(t.Values(), sid, startTime) <==>
              id in t.entries && Associated(t.entries[id], sid, startTime)
  {
    var vs := t.Values();
    AssociatedIdsMembers(vs, sid, startTime, id);
    if id in t.entries && Associated(t.entries[id], sid, startTime) {
      var i :| 0 <= i < |t.keys| && t.keys[i] == id;
      assert vs[i] == t.entries[id];
    }
  }

  /** The session 'createSession' makes: the clock id, the given name or
      `Session <date>`, the creation time and no screenshots. */
  function NewSession(name: string, env: Env): (s: Session)
    ensures s.id == NatToString(env.now) && s.created == Some(env.now) && s.screenshotCount == 0
    ensures name != "" ==> s.name == name
    ensures name == "" ==> s.name == "Session " + env.localeNow
  {
    Session(NatToString(env.now), if name != "" then name else "Session " + env.localeNow, Some(env.now), 0)
  }

  /** A transcript as 'saveTranscript' stores it: the final text, the end time
      and the ids of the screenshots associated with it. */
  function Finished(t: Transcript, text: string, now: nat, shots: seq<Screenshot>): (saved: Transcript)
    ensures saved.id == t.id && saved.sessionId == t.sessionId && saved.startTime == t.startTime
    ensures saved.text == text && saved.endTime == Some(now)
    ensures forall id :: id in saved.screenshots <==>
              exists i :: 0 <= i < |shots| && shots[i].id == id && Associated(shots[i], t.sessionId, t.startTime)
  {
    var ids := AssociatedIds(shots, t.sessionId, t.startTime);
    assert forall id :: id in ids <==>
             exists i :: 0 <= i < |shots| && shots[i].id == id && Associated(shots[i], t.sessionId, t.startTime) by {
      forall id
        ensures id in ids <==>
                exists i :: 0 <= i < |shots| && shots[i].id == id && Associated(shots[i], t.sessionId, t.startTime)
      {
        AssociatedIdsMembers(shots, t.sessionId, t.startTime, id);
      }
    }
    t.(text := text, endTime := Some(now), screenshots := ids)
  }

  /** Saved over a keyed screenshot table, a transcript lists exactly the stored
      screenshots of its session taken at or after its start. */
  lemma SavedIdsExact(t: Transcript, text: string, now: nat, tbl: Table<Screenshot>)
    requires tbl.Valid() && ScreenshotsKeyed(tbl)
    ensures forall id :: id in Finished(t, text, now, tbl.Values()).screenshots <==>
              id in tbl.entries && Associated(tbl.entries[id], t.sessionId, t.startTime)
  {
    forall id
      ensures id in Finished(t, text, now, tbl.Values()).screenshots <==>
              id in tbl.entries && Associated(tbl.entries[id], t.sessionId, t.startTime)
    {
      AssociationIsExact(tbl, t.sessionId, t.startTime, id);
    }
  }

  /** The record a capture stores: the clock id, the current session's id, the
      image, the target tab's url and title, the type and region asked for, the
      next number in the session (1 outside one) and the working text while
      recording. */
  function NewShot(target: Tab, captureType: CaptureType, region: Option<Rect>, env: Env,
                   session: Option<Session>, recording: bool, text: string): (shot: Screenshot)
    ensures shot.id == NatToString(env.now) && shot.sessionId == SessionIdOf(session)
    ensures shot.imageData == env.imageData && shot.timestamp == env.now
    ensures shot.url == target.url && shot.title == target.title
    ensures shot.captureType == captureType && shot.region == region
    ensures session.Some? ==> shot.sequenceNumber == session.value.screenshotCount + 1
    ensures session.None? ==> shot.sequenceNumber == 1
    ensures recording ==> shot.transcript == Some(text)
    ensures !recording ==> shot.transcript == None
  {
    Screenshot(NatToString(env.now), SessionIdOf(session), env.imageData, env.now, target.url, target.title,
               captureType, region, if session.Some? then session.value.screenshotCount + 1 else 1,
               if recording then Some(text) else None)
  }

  class Coordinator {
    const store: LocalStore
    var currentSession: Option<Session>
    var activeTranscript: Option<Transcript>
    var isRecording: bool
    var currentTranscriptText: string

    /** Recording is on exactly while a transcript is active, and the working
        text is empty whenever recording is off. */
    ghost predicate Valid()
      reads this, store
    {
      && store.Valid()
      && (isRecording <==> activeTranscript.Some?)
      && (!isRecording ==> currentTranscriptText == "")
    }

    /** The service worker starting over an existing store. */
    constructor (store: LocalStore)
      requires store.Valid()
      ensures Valid() && this.store == store
      ensures currentSession == None && activeTranscript == None
      ensures !isRecording && currentTranscriptText == ""
    {
      this.store := store;
      currentSession := None;
      activeTranscript := None;
      isRecording := false;
      currentTranscriptText := "";
    }

    /** The `onMessage` listener: each action runs its handler, with that
        handler's reply and new state; any action outside the switch gets
        'Unknown action' and changes nothing. */
    method Handle(request: Request, senderTab: Option<Tab>, env: Env) returns (r: Response)
      requires Valid()
      modifies this, store
      ensures Valid()
      ensures Handled(request, senderTab, env, r)
      ensures r.Error? ==> Untouched()
    {
      match request
      case Test =>
        r := Success(Message("Background is working!"));
      case GetCurrentSession =>
        r := GetCurrentSession();
      case CreateSession(name) =>
        r := CreateSession(name, env);
      case CaptureScreenshot(tab) =>
        r := CaptureScreenshot(tab, Full, None, env);
      case CaptureRegion(tab, region) =>
        r := CaptureRegion(senderTab, tab, region, env);
      case StartTranscript(sessionId) =>
        r := StartTranscript(sessionId, env);
      case UpdateTranscript(text) =>
        r := UpdateTranscript(text);
      case SaveTranscript(text, _) =>
        r := SaveTranscript(text, env);
      case _ =>
        r := Error(UnknownAction);
    }

    /** No field of the coordinator or of the store has changed. */
    twostate predicate Untouched()
      reads this, store
    {
      && currentSession == old(currentSession) && activeTranscript == old(activeTranscript)
      && isRecording == old(isRecording) && currentTranscriptText == old(currentTranscriptText)
      && store.screenshots == old(store.screenshots) && store.transcripts == old(store.transcripts)
      && store.currentSession == old(store.currentSession)
    }

    /** One message has been handled: each action has its handler's reply and
        new state; any action outside the switch gets 'Unknown action' and
        changes nothing. */
    twostate predicate Handled(request: Request, senderTab: Option<Tab>, env: Env, r: Response)
      reads this, store
    {
      match request
      case Test => r == Success(Message("Background is working!")) && Untouched()
      case GetCurrentSession => SessionLoaded(r)
      case CreateSession(name) => SessionCreated(name, env, r)
      case CaptureScreenshot(tab) => ScreenshotTaken(tab, Full, None, env, r)
      case CaptureRegion(tab, region) => RegionCaptured(senderTab, tab, region, env, r)
      case StartTranscript(sessionId) => TranscriptBegun(sessionId, env, r)
      case UpdateTranscript(text) => TranscriptUpdated(text, r)
      case SaveTranscript(text, _) => TranscriptStored(text, env, r)
      case _ => r == Error(UnknownAction) && Untouched()
    }

    /** 'getCurrentSession' has run: the in-memory session, else the stored one,
        is current and is the reply; nothing else changes. */
    twostate predicate SessionLoaded(r: Response)
      reads this, store
    {
      && currentSession == (if old(currentSession).Some? then old(currentSession) else old(store.currentSession))
      && r == Success(SessionInfo(currentSession))
      && activeTranscript == old(activeTranscript) && isRecording == old(isRecording)
      && currentTranscriptText == old(currentTranscriptText)
      && unchanged(store)
    }

    /** 'createSession' has run: the new session is current, persisted and the reply. */
    twostate predicate SessionCreated(name: string, env: Env, r: Response)
      reads this, store
    {
      var s := NewSession(name, env);
      && currentSession == Some(s) && store.currentSession == Some(s)
      && r == Success(SessionInfo(Some(s)))
      && activeTranscript == old(activeTranscript) && isRecording == old(isRecording)
      && currentTranscriptText == old(currentTranscriptText)
      && store.screenshots == old(store.screenshots) && store.transcripts == old(store.transcripts)
    }

    /** 'startTranscript' has run: a fresh transcript for the request's session,
        else the current one, replaces any active one; recording is on. */
    twostate predicate TranscriptBegun(sessionId: Option<Id>, env: Env, r: Response)
      reads this, store
    {
      && activeTranscript == Some(Transcript(NatToString(env.now), Or(sessionId, SessionIdOf(old(currentSession))),
                                             env.now, None, "", []))
      && isRecording && currentTranscriptText == ""
      && r == Success(TranscriptStarted(NatToString(env.now)))
      && currentSession == old(currentSession)
      && unchanged(store)
    }

    /** 'updateTranscript' has run: the text is taken only while recording and
        only when non-empty; the reply is success. */
    twostate predicate TranscriptUpdated(text: string, r: Response)
      reads this, store
    {
      && currentTranscriptText == (if old(isRecording) && text != "" then text else old(currentTranscriptText))
      && r == Success(NoPayload)
      && currentSession == old(currentSession) && activeTranscript == old(activeTranscript)
      && isRecording == old(isRecording)
      && unchanged(store)
    }

    /** 'saveTranscript' has run: without an active transcript nothing changes;
        otherwise only its key is written, with the text, the end time and the
        associated screenshot ids, and recording stops. */
    twostate predicate TranscriptStored(text: string, env: Env, r: Response)
      reads this, store
    {
      && (old(activeTranscript).None? ==>
            r == Error(NoActiveTranscript) && Untouched())
      && (old(activeTranscript).Some? ==> TranscriptFinished(old(activeTranscript).value, text, env, r))
    }

    /** The active transcript `t` has been saved: only its key is written, as
        `Finished` describes, the reply carries it, and recording stops. */
    twostate predicate TranscriptFinished(t: Transcript, text: string, env: Env, r: Response)
      reads this, store
    {
      && store.screenshots.Valid()
      && var saved := Finished(t, text, env.now, store.screenshots.Values());
         && store.transcripts == old(store.transcripts).Put(t.id, saved)
         && (forall id :: id in saved.screenshots <==>
               id in store.screenshots.entries && Associated(store.screenshots.entries[id], t.sessionId, t.startTime))
         && r == Success(TranscriptSaved(saved))
         && activeTranscript == None && !isRecording && currentTranscriptText == ""
         && currentSession == old(currentSession)
         && store.screenshots == old(store.screenshots) && store.currentSession == old(store.currentSession)
    }

    /** `captureScreenshot(tab, type, region)` has run: refused when the store is
        nearly full or no tab can be found, with nothing written; otherwise the new
        record (every field given) is stored under its id, the reply carries it,
        and the current session counts it and is persisted. */
    twostate predicate ScreenshotTaken(tab: Option<Tab>, captureType: CaptureType, region: Option<Rect>, env: Env,
                                       r: Response)
      reads this, store
    {
      && (NearlyFull(env.bytesInUse, env.quotaBytes) ==>
            r == Error(StorageNearlyFull(env.bytesInUse, EffectiveQuota(env.quotaBytes)))
            && Untouched())
      && (!NearlyFull(env.bytesInUse, env.quotaBytes) && CaptureTarget(tab, env.activeTab).None? ==>
            r == Error(NoActiveTab) && Untouched())
      && (!NearlyFull(env.bytesInUse, env.quotaBytes) && CaptureTarget(tab, env.activeTab).Some? ==>
            var shot := NewShot(CaptureTarget(tab, env.activeTab).value, captureType, region, env,
                                old(currentSession), old(isRecording), old(currentTranscriptText));
            && r == Success(Captured(shot))
            && store.screenshots == old(store.screenshots).Put(shot.id, shot)
            && (old(currentSession).Some? ==>
                  && currentSession == Some(old(currentSession).value.(screenshotCount := shot.sequenceNumber))
                  && store.currentSession == currentSession)
            && (old(currentSession).None? ==>
                  currentSession == None && store.currentSession == old(store.currentSession))
            && activeTranscript == old(activeTranscript) && isRecording == old(isRecording)
            && currentTranscriptText == old(currentTranscriptText)
            && store.transcripts == old(store.transcripts))
    }

    /** 'captureRegion' has run: with neither the sender's nor the request's tab
        it is refused with nothing written; otherwise it is the capture of the
        sender's tab, else the request's, as a region with the given rectangle. */
    twostate predicate RegionCaptured(senderTab: Option<Tab>, requestTab: Option<Tab>, region: Rect, env: Env,
                                      r: Response)
      reads this, store
    {
      && (senderTab.None? && requestTab.None? ==>
            r == Error(NoTabInformation) && Untouched())
      && (senderTab.Some? || requestTab.Some? ==>
            ScreenshotTaken(if senderTab.Some? then senderTab else requestTab, Region, Some(region), env, r))
    }

    /** 'getCurrentSession': falls back to the stored session when none is in memory. */
    method GetCurrentSession() returns (r: Response)
      requires Valid()
      modifies this`currentSession
      ensures Valid() && SessionLoaded(r)
    {
      if currentSession.None? {
        currentSession := store.currentSession;
      }
      r := Success(SessionInfo(currentSession));
    }

    /** 'createSession': a fresh session with no screenshots becomes current and is persisted. */
    method CreateSession(name: string, env: Env) returns (r: Response)
      requires Valid()
      modifies this`currentSession, store`currentSession
      ensures Valid() && SessionCreated(name, env, r)
    {
      currentSession := Some(NewSession(name, env));
      store.currentSession := currentSession;
      r := Success(SessionInfo(currentSession));
    }

    /** 'startTranscript': always succeeds; silently replaces any active transcript. */
    method StartTranscript(sessionId: Option<Id>, env: Env) returns (r: Response)
      requires Valid()
      modifies this`activeTranscript, this`isRecording, this`currentTranscriptText
      ensures Valid() && TranscriptBegun(sessionId, env, r)
    {
      activeTranscript := Some(Transcript(NatToString(env.now), Or(sessionId, SessionIdOf(currentSession)),
                                          env.now, None, "", []));
      isRecording := true;
      currentTranscriptText := "";
      r := Success(TranscriptStarted(activeTranscript.value.id));
    }

    /** 'updateTranscript': takes the text only while recording and only when it is
        not empty; replies success either way. */
    method UpdateTranscript(text: string) returns (r: Response)
      requires Valid()
      modifies this`currentTranscriptText
      ensures Valid() && TranscriptUpdated(text, r)
    {
      if isRecording && text != "" {
        currentTranscriptText := text;
      }
      r := Success(NoPayload);
    }

    /** 'saveTranscript': stores the active transcript with the request's text, its end
        time and the screenshots associated with it, then stops recording. */
    method SaveTranscript(text: string, env: Env) returns (r: Response)
      requires Valid()
      modifies this`activeTranscript, this`isRecording, this`currentTranscriptText, store`transcripts
      ensures Valid() && TranscriptStored(text, env, r)
      ensures r.Error? ==> Untouched()
    {
      if activeTranscript.None? {
        r := Error(NoActiveTranscript);
        return;
      }
      r := FinishTranscript(activeTranscript.value, text, env);
    }

    /** The success path of a save: the two writes, then recording stops. */
    method FinishTranscript(t: Transcript, text: string, env: Env) returns (r: Response)
      requires Valid() && activeTranscript == Some(t)
      modifies this`activeTranscript, this`isRecording, this`currentTranscriptText, store`transcripts
      ensures Valid() && TranscriptFinished(t, text, env, r)
    {
      var saved := StoreTranscript(t, text, env.now);
      r := Success(TranscriptSaved(saved));
      EndRecording();
    }

    /** Recording stops and the working text is dropped. */
    method EndRecording()
      requires store.Valid()
      modifies this`activeTranscript, this`isRecording, this`currentTranscriptText
      ensures Valid()
      ensures activeTranscript == None && !isRecording && currentTranscriptText == ""
    {
      activeTranscript := None;
      isRecording := false;
      currentTranscriptText := "";
    }

    /** The two writes of a save: the finished transcript, then the same record
        with the ids of the screenshots associated with it. */
    method StoreTranscript(t: Transcript, text: string, now: nat) returns (saved: Transcript)
      requires Valid()
      modifies store`transcripts
      ensures store.Valid()
      ensures saved == Finished(t, text, now, store.screenshots.Values())
      ensures store.transcripts == old(store.transcripts).Put(t.id, saved)
      ensures forall id :: id in saved.screenshots <==>
                id in store.screenshots.entries && Associated(store.screenshots.entries[id], t.sessionId, t.startTime)
    {
      var ended := t.(text := text, endTime := Some(now));
      store.PutTranscript(ended);
      saved := ended.(screenshots := AssociatedIds(store.screenshots.Values(), t.sessionId, t.startTime));
      store.PutTranscript(saved);
      PutTwice(old(store.transcripts), t.id, ended, saved);
      SavedIdsExact(t, text, now, store.screenshots);
    }

    /** `captureScreenshot(tab, type, region)`: refuses when the store is nearly full
        or no tab can be found; otherwise stores a new screenshot under its id and
        counts it in the current session. */
    method CaptureScreenshot(tab: Option<Tab>, captureType: CaptureType, region: Option<Rect>, env: Env)
      returns (r: Response)
      requires Valid()
      modifies this`currentSession, store`screenshots, store`currentSession
      ensures Valid() && ScreenshotTaken(tab, captureType, region, env, r)
      ensures r.Error? ==> Untouched()
    {
      if NearlyFull(env.bytesInUse, env.quotaBytes) {
        r := Error(StorageNearlyFull(env.bytesInUse, EffectiveQuota(env.quotaBytes)));
        return;
      }
      var target := tab;
      if !(tab.Some? && tab.value.windowId != 0) {
        if env.activeTab.None? {
          r := Error(NoActiveTab);
          return;
        }
        target := env.activeTab;
      }
      var shot := StoreCapture(target.value, captureType, region, env);
      r := Success(Captured(shot));
    }

    /** The success path of a capture: the record is written under its id and
        the session's counter advances. */
    method StoreCapture(target: Tab, captureType: CaptureType, region: Option<Rect>, env: Env)
      returns (shot: Screenshot)
      requires Valid()
      modifies this`currentSession, store`screenshots, store`currentSession
      ensures Valid()
      ensures shot == NewShot(target, captureType, region, env, old(currentSession), isRecording, currentTranscriptText)
      ensures store.screenshots == old(store.screenshots).Put(shot.id, shot)
      ensures old(currentSession).Some? ==>
                && currentSession == Some(old(currentSession).value.(screenshotCount := shot.sequenceNumber))
                && store.currentSession == currentSession
      ensures old(currentSession).None? ==>
                currentSession == None && store.currentSession == old(store.currentSession)
    {
      shot := NewShot(target, captureType, region, env, currentSession, isRecording, currentTranscriptText);
      store.PutScreenshot(shot);
      if currentSession.Some? {
        currentSession := Some(currentSession.value.(screenshotCount := currentSession.value.screenshotCount + 1));
        store.currentSession := currentSession;
      }
    }

    /** 'captureRegion': the sender's tab, else the request's tab, captured as a region. */
    method CaptureRegion(senderTab: Option<Tab>, requestTab: Option<Tab>, region: Rect, env: Env)
      returns (r: Response)
      requires Valid()
      modifies this`currentSession, store`screenshots, store`currentSession
      ensures Valid() && RegionCaptured(senderTab, requestTab, region, env, r)
      ensures r.Error? ==> Untouched()
    {
      var tabForRegion := if senderTab.Some? then senderTab else requestTab;
      if tabForRegion.None? {
        r := Error(NoTabInformation);
        return;
      }
      r := CaptureScreenshot(tabForRegion, Region, Some(region), env);
    }
  }

  /** Two captures in a fresh session are numbered 1 and 2, and the session then counts 2. */
  method ConsecutiveCaptures(name: string, env0: Env, env1: Env, env2: Env, tab: Tab)
    returns (first: nat, second: nat, count: nat)
    requires tab.windowId != 0
    requires !NearlyFull(env1.bytesInUse, env1.quotaBytes) && !NearlyFull(env2.bytesInUse, env2.quotaBytes)
    ensures first == 1 && second == 2 && count == 2
  {
    var store := new LocalStore(EmptyTable(), EmptyTable(), None);
    var c := new Coordinator(store);
    var _ := c.CreateSession(name, env0);
    assert c.currentSession.Some? && c.currentSession.value.screenshotCount == 0;
    var r1 := c.CaptureScreenshot(Some(tab), Full, None, env1);
    assert r1.payload.screenshot.sequenceNumber == 1 && c.currentSession.value.screenshotCount == 1;
    var r2 := c.CaptureScreenshot(Some(tab), Full, None, env2);
    first := r1.payload.screenshot.sequenceNumber;
    second := r2.payload.screenshot.sequenceNumber;
    count := c.currentSession.value.screenshotCount;
  }
}
