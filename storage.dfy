/** `chrome.storage.local`, the key-value store every part of the extension
    reads and writes. Its calls are asynchronous in the extension; here each
    read or write happens at once. A key that was never set or has been
    removed reads as the empty table, as every reader defaults it to `{}`. */
module Storage {
  import opened Records

  class LocalStore {
    var screenshots: Table<Screenshot>
    var transcripts: Table<Transcript>
    var currentSession: Option<Session>

    ghost predicate Valid()
      reads this
    {
      && screenshots.Valid() && ScreenshotsKeyed(screenshots)
      && transcripts.Valid() && TranscriptsKeyed(transcripts)
    }

    /** A store holding whatever an earlier run of the extension left in it. */
    constructor (screenshots: Table<Screenshot>, transcripts: Table<Transcript>, currentSession: Option<Session>)
      requires screenshots.Valid() && ScreenshotsKeyed(screenshots)
      requires transcripts.Valid() && TranscriptsKeyed(transcripts)
      ensures Valid()
      ensures this.screenshots == screenshots && this.transcripts == transcripts
      ensures this.currentSession == currentSession
    {
      this.screenshots := screenshots;
      this.transcripts := transcripts;
      this.currentSession := currentSession;
    }

    /** Writing back the screenshots table with `shot` stored under its id. */
    method PutScreenshot(shot: Screenshot)
      requires Valid()
      modifies this`screenshots
      ensures Valid()
      ensures screenshots == old(screenshots).Put(shot.id, shot)
    {
      screenshots := screenshots.Put(shot.id, shot);
    }

    /** Writing back the transcripts table with `t` stored under its id. */
    method PutTranscript(t: Transcript)
      requires Valid()
      modifies this`transcripts
      ensures Valid()
      ensures transcripts == old(transcripts).Put(t.id, t)
    {
      transcripts := transcripts.Put(t.id, t);
    }

    /** `chrome.storage.local.clear()`. */
    method Clear()
      modifies this
      ensures Valid()
      ensures screenshots == EmptyTable() && transcripts == EmptyTable() && currentSession == None
    {
      screenshots := EmptyTable();
      transcripts := EmptyTable();
      currentSession := None;
    }
  }
}
