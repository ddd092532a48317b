/** The popup of popup.js: the recording toggle over `isRecording` and
    `currentTranscript`, the speech-result accumulation, the guards on the
    capture buttons and the recent-thumbnail list. Every message the popup
    sends is appended to `outbox`; the reply it gets back, where it uses one,
    is an input. Speech recognition and the microphone are foreign: only
    whether they are available, and whether access was granted, are modelled. */
module Popup {
  import opened Records
  import opened Storage
  import opened Listing

  /** The popup shows at most this many thumbnails. */
  const ThumbnailLimit: nat := 10

  /** One entry of `event.results`: its best alternative and whether it is final. */
  datatype SpeechResult = SpeechResult(transcript: string, isFinal: bool)

  /** The outcome of asking for the microphone and starting recognition. */
  datatype MicAccess = Granted | Denied | Failed(message: string)

  /** The final segments, in order, each followed by a space. */
  function FinalText(rs: seq<SpeechResult>): string
  {
    if rs == [] then ""
    else
      var last := rs[|rs| - 1];
      FinalText(rs[..|rs| - 1]) + (if last.isFinal then last.transcript + " " else "")
  }

  /** The interim segments, in order, with nothing between them. */
  function InterimText(rs: seq<SpeechResult>): string
  {
    if rs == [] then ""
    else
      var last := rs[|rs| - 1];
      InterimText(rs[..|rs| - 1]) + (if last.isFinal then "" else last.transcript)
  }

  /** A final text ends with the space its last segment brought; with only final
      segments there is no interim text. */
  lemma {:induction false} TextsShape(rs: seq<SpeechResult>)
    ensures FinalText(rs) != "" ==> FinalText(rs)[|FinalText(rs)| - 1] == ' '
    ensures (forall i :: 0 <= i < |rs| ==> rs[i].isFinal) ==> InterimText(rs) == ""
  {
    if rs != [] {
      var init := rs[..|rs| - 1];
      TextsShape(init);
      assert forall i :: 0 <= i < |init| ==> init[i] == rs[i];
    }
  }

  /** Both texts are built segment by segment: the texts of two runs of results
      are those of each run, joined. */
  lemma {:induction false} TextsAppend(a: seq<SpeechResult>, b: seq<SpeechResult>)
    ensures FinalText(a + b) == FinalText(a) + FinalText(b)
    ensures InterimText(a + b) == InterimText(a) + InterimText(b)
    decreases |b|
  {
    if b != [] {
      var init := b[..|b| - 1];
      assert (a + b)[..|a + b| - 1] == a + init;
      assert (a + b)[|a + b| - 1] == b[|b| - 1];
      TextsAppend(a, init);
    } else {
      assert a + b == a;
    }
  }

  /** An event yields final text exactly when it holds a final segment, even an empty one. */
  lemma {:induction false} FinalTextEmpty(rs: seq<SpeechResult>)
    ensures FinalText(rs) == "" <==> forall i :: 0 <= i < |rs| ==> !rs[i].isFinal
  {
    if rs != [] {
      var init := rs[..|rs| - 1];
      FinalTextEmpty(init);
      assert forall i :: 0 <= i < |init| ==> init[i] == rs[i];
    }
  }

  /** The results from `resultIndex` on, the ones the loop visits. */
  function Pending(results: seq<SpeechResult>, resultIndex: nat): seq<SpeechResult>
  {
    if resultIndex <= |results| then results[resultIndex..] else []
  }

  /** The loop of `recognition.onresult`. */
  method Accumulate(results: seq<SpeechResult>, resultIndex: nat)
    returns (finalTranscript: string, interimTranscript: string)
    ensures finalTranscript == FinalText(Pending(results, resultIndex))
    ensures interimTranscript == InterimText(Pending(results, resultIndex))
  {
    interimTranscript := "";
    finalTranscript := "";
    var i := resultIndex;
    while i < |results|
      invariant resultIndex <= i
      invariant resultIndex <= |results| ==> i <= |results|
      invariant resultIndex <= |results| ==> finalTranscript == FinalText(results[resultIndex..i])
      invariant resultIndex <= |results| ==> interimTranscript == InterimText(results[resultIndex..i])
      invariant resultIndex > |results| ==> finalTranscript == "" && interimTranscript == ""
    {
      assert results[resultIndex..i + 1][..i - resultIndex] == results[resultIndex..i];
      var transcript := results[i].transcript;
      if results[i].isFinal {
        finalTranscript := finalTranscript + transcript + " ";
      } else {
        interimTranscript := interimTranscript + transcript;
      }
      i := i + 1;
    }
    assert resultIndex <= |results| ==> results[resultIndex..i] == results[resultIndex..];
  }

  /** `loadScreenshots`: the current session's screenshots (all of them when there
      is no session), newest first, at most ten. */
  function RecentThumbnails(vals: seq<Screenshot>, currentSession: Option<Session>): (r: seq<Screenshot>)
    ensures var kept := InSession(vals, SessionIdOf(currentSession));
            |r| == if |kept| < ThumbnailLimit then |kept| else ThumbnailLimit
    ensures Ordered(r, true)
    ensures multiset(r) <= multiset(InSession(vals, SessionIdOf(currentSession)))
  {
    var sorted := SortByTime(InSession(vals, SessionIdOf(currentSession)), true);
    var r := Take(sorted, ThumbnailLimit);
    assert sorted == r + sorted[|r|..];
    r
  }

  /** The thumbnails are screenshots of the current session, and none that was
      left out is newer than one that is shown. */
  lemma RecentThumbnailsSelection(vals: seq<Screenshot>, currentSession: Option<Session>)
    ensures var r := RecentThumbnails(vals, currentSession);
            forall s :: s in r ==> s in vals && Kept(s, SessionIdOf(currentSession))
    ensures var r := RecentThumbnails(vals, currentSession);
            forall s, t :: s in r && t in vals && Kept(t, SessionIdOf(currentSession)) && t !in r ==>
              s.timestamp >= t.timestamp
  {
    var sid := SessionIdOf(currentSession);
    var kept := InSession(vals, sid);
    var sorted := SortByTime(kept, true);
    InSessionContents(vals, sid);
    forall s | s in vals && Kept(s, sid)
      ensures s in sorted
    {
      assert s in multiset(kept);
    }
    forall s | s in sorted
      ensures s in vals && Kept(s, sid)
    {
      assert s in multiset(kept);
    }
    PrefixIsNewest(sorted, ThumbnailLimit);
  }

  class Panel {
    const store: LocalStore
    /** Whether the browser offers speech recognition at all. */
    const recognitionAvailable: bool
    var currentSession: Option<Session>
    var isRecording: bool
    var currentTranscript: string
    var status: string
    var thumbnails: seq<Screenshot>
    var outbox: seq<Request>

    ghost predicate Valid()
      reads this, store
    {
      store.Valid()
    }

    constructor (store: LocalStore, recognitionAvailable: bool)
      requires store.Valid()
      ensures Valid() && this.store == store && this.recognitionAvailable == recognitionAvailable
      ensures currentSession == None && !isRecording && currentTranscript == ""
      ensures thumbnails == [] && outbox == []
    {
      this.store := store;
      this.recognitionAvailable := recognitionAvailable;
      currentSession := None;
      isRecording := false;
      currentTranscript := "";
      status := "";
      thumbnails := [];
      outbox := [];
    }

    /** `loadSession`: asks for the current session and keeps it if the reply has one. */
    method LoadSession(reply: Response)
      modifies this`outbox, this`currentSession
      ensures outbox == old(outbox) + [GetCurrentSession]
      ensures currentSession ==
                if reply.Success? && reply.payload.SessionInfo? && reply.payload.session.Some?
                then reply.payload.session else old(currentSession)
    {
      outbox := outbox + [GetCurrentSession];
      if reply.Success? && reply.payload.SessionInfo? && reply.payload.session.Some? {
        currentSession := reply.payload.session;
      }
    }

    /** `loadScreenshots`. */
    method LoadScreenshots()
      requires Valid()
      modifies this`thumbnails
      ensures thumbnails == RecentThumbnails(store.screenshots.Values(), currentSession)
    {
      thumbnails := RecentThumbnails(store.screenshots.Values(), currentSession);
    }

    /** `checkRecordingState`: asks whether recording is on. Only a successful reply
        saying so would change the popup, and no reply of the coordinator says so. */
    method CheckRecordingState()
      modifies this`outbox
      ensures outbox == old(outbox) + [GetRecordingState]
    {
      outbox := outbox + [GetRecordingState];
    }

    /** The new-session button; `name` is what the prompt returned, '' when it was
        cancelled or left empty. */
    method NewSessionClick(name: string, reply: Response)
      modifies this`outbox, this`currentSession, this`status
      ensures name == "" ==> unchanged(this)
      ensures name != "" ==> outbox == old(outbox) + [CreateSession(name)]
      ensures name != "" && reply.Success? ==>
                && currentSession == (if reply.payload.SessionInfo? then reply.payload.session else None)
                && status == "New session created"
      ensures name != "" && reply.Error? ==> currentSession == old(currentSession) && status == old(status)
    {
      if name == "" {
        return;
      }
      outbox := outbox + [CreateSession(name)];
      if reply.Success? {
        currentSession := if reply.payload.SessionInfo? then reply.payload.session else None;
        status := "New session created";
      }
    }

    /** The capture button: without a session it only asks for one; otherwise it
        sends the active tab for capture and reports the reply. */
    method CaptureClick(tab: Option<Tab>, reply: Response)
      modifies this`outbox, this`status
      ensures currentSession.None? ==> outbox == old(outbox) && status == "Please create a session first"
      ensures currentSession.Some? ==> outbox == old(outbox) + [CaptureScreenshot(tab)]
      ensures currentSession.Some? && reply.Success? && reply.payload.Captured? ==>
                status == "Screenshot #" + NatToString(reply.payload.screenshot.sequenceNumber) + " captured!"
      ensures currentSession.Some? && reply.Error? ==> status == "Error: " + FailureMessage(reply.failure)
    {
      if currentSession.None? {
        status := "Please create a session first";
        return;
      }
      status := "Capturing...";
      outbox := outbox + [CaptureScreenshot(tab)];
      if reply.Success? && reply.payload.Captured? {
        status := "Screenshot #" + NatToString(reply.payload.screenshot.sequenceNumber) + " captured!";
      } else if reply.Error? {
        status := "Error: " + FailureMessage(reply.failure);
      }
    }

    /** The region button: without a session it only asks for one; otherwise the
        tab's content script is told to open its overlay. `reachable` is false
        when the tab has no content script, as on browser pages. */
    method CaptureRegionClick(reachable: bool)
      modifies this`outbox, this`status
      ensures currentSession.None? ==> outbox == old(outbox) && status == "Please create a session first"
      ensures currentSession.Some? && reachable ==> outbox == old(outbox) + [StartRegionSelection] && status == old(status)
      ensures currentSession.Some? && !reachable ==>
                outbox == old(outbox) && status == "Error: Make sure you're on a regular webpage"
    {
      if currentSession.None? {
        status := "Please create a session first";
        return;
      }
      if reachable {
        outbox := outbox + [StartRegionSelection];
      } else {
        status := "Error: Make sure you're on a regular webpage";
      }
    }

    /** The voice button toggles: it stops a recording that is on and starts one
        that is off. */
    method VoiceClick(mic: MicAccess)
      modifies this`isRecording, this`currentTranscript, this`outbox, this`status
      ensures old(isRecording) ==> RecordingStopped() && currentTranscript == old(currentTranscript)
      ensures !old(isRecording) ==> RecordingStarted(mic)
    {
      if isRecording {
        StopRecording();
      } else {
        StartRecording(mic);
      }
    }

    /** `startRecording` has run: nothing happens without speech recognition; with
        microphone access recording is on with an empty transcript and the
        coordinator is told the session; a refusal or a failure only shows why. */
    twostate predicate RecordingStarted(mic: MicAccess)
      reads this
    {
      && (!recognitionAvailable ==>
            && isRecording == old(isRecording) && currentTranscript == old(currentTranscript)
            && outbox == old(outbox) && status == old(status))
      && (recognitionAvailable && mic.Granted? ==>
            && isRecording && currentTranscript == ""
            && outbox == old(outbox) + [StartTranscript(SessionIdOf(currentSession))]
            && status == old(status))
      && (recognitionAvailable && mic.Denied? ==>
            && isRecording == old(isRecording) && currentTranscript == old(currentTranscript)
            && outbox == old(outbox)
            && status == "Microphone access denied. Please allow microphone access.")
      && (recognitionAvailable && mic.Failed? ==>
            && isRecording == old(isRecording) && currentTranscript == old(currentTranscript)
            && outbox == old(outbox)
            && status == "Error: " + mic.message)
    }

    method StartRecording(mic: MicAccess)
      modifies this`isRecording, this`currentTranscript, this`outbox, this`status
      ensures RecordingStarted(mic)
    {
      if !recognitionAvailable {
        return;
      }
      match mic
      case Granted =>
        isRecording := true;
        currentTranscript := "";
        outbox := outbox + [StartTranscript(SessionIdOf(currentSession))];
      case Denied =>
        status := "Microphone access denied. Please allow microphone access.";
      case Failed(message) =>
        status := "Error: " + message;
    }

    /** `stopRecording` has run: nothing happens without speech recognition;
        otherwise recording is off and a non-empty transcript is sent for saving,
        which the status reports. */
    twostate predicate RecordingStopped()
      reads this
    {
      && (!recognitionAvailable ==>
            isRecording == old(isRecording) && outbox == old(outbox) && status == old(status))
      && (recognitionAvailable ==> !isRecording)
      && (recognitionAvailable && currentTranscript != "" ==>
            && outbox == old(outbox) + [SaveTranscript(currentTranscript, SessionIdOf(currentSession))]
            && status == "Transcript saved")
      && (recognitionAvailable && currentTranscript == "" ==> outbox == old(outbox) && status == old(status))
    }

    /** Stops recording; the transcript is sent for saving only if it is not empty. */
    method StopRecording()
      modifies this`isRecording, this`outbox, this`status
      ensures RecordingStopped()
    {
      if !recognitionAvailable {
        return;
      }
      isRecording := false;
      if currentTranscript != "" {
        outbox := outbox + [SaveTranscript(currentTranscript, SessionIdOf(currentSession))];
        status := "Transcript saved";
      }
    }

    /** `recognition.onresult`: this event's final text replaces the transcript when
        there is some; the live text then goes to the coordinator unless it is empty. */
    method OnResult(results: seq<SpeechResult>, resultIndex: nat)
      modifies this`currentTranscript, this`outbox
      ensures var fin := FinalText(Pending(results, resultIndex));
              currentTranscript == if fin != "" then fin else old(currentTranscript)
      ensures currentTranscript != "" ==>
                outbox == old(outbox) + [UpdateTranscript(currentTranscript + InterimText(Pending(results, resultIndex)))]
      ensures currentTranscript == "" ==> outbox == old(outbox)
    {
      var finalTranscript, interimTranscript := Accumulate(results, resultIndex);
      currentTranscript := if finalTranscript != "" then finalTranscript else currentTranscript;
      if currentTranscript != "" {
        outbox := outbox + [UpdateTranscript(currentTranscript + interimTranscript)];
      }
    }

    /** `recognition.onerror`: reports the error and stops recording; a save that
        the stop sends overwrites the report with its own. */
    method OnRecognitionError(error: string)
      modifies this`isRecording, this`outbox, this`status
      ensures !recognitionAvailable ==> isRecording == old(isRecording) && outbox == old(outbox)
      ensures recognitionAvailable ==> !isRecording
      ensures recognitionAvailable && currentTranscript != "" ==>
                outbox == old(outbox) + [SaveTranscript(currentTranscript, SessionIdOf(currentSession))]
                && status == "Transcript saved"
      ensures !(recognitionAvailable && currentTranscript != "") ==>
                outbox == old(outbox) && status == "Voice error: " + error
    {
      status := "Voice error: " + error;
      StopRecording();
    }

    /** The clear-data button: after confirmation the whole store is cleared and the
        coordinator is told, which it answers with 'Unknown action'. */
    method ClearAllClick(confirmed: bool)
      requires Valid()
      modifies this`currentSession, this`thumbnails, this`status, this`outbox, store
      ensures Valid()
      ensures !confirmed ==> unchanged(this) && unchanged(store)
      ensures confirmed ==>
                && store.screenshots == EmptyTable() && store.transcripts == EmptyTable()
                && store.currentSession == None
                && currentSession == None && thumbnails == [] && status == "All data cleared"
                && outbox == old(outbox) + [ClearAllData]
    {
      if !confirmed {
        return;
      }
      store.Clear();
      currentSession := None;
      thumbnails := [];
      status := "All data cleared";
      outbox := outbox + [ClearAllData];
    }
  }
}
