/** Values shared by every part of the extension: the stored records, the
    messages exchanged between the popup, the content script and the
    background coordinator, and a model of a JavaScript object used as a
    dictionary. */
module Records {

  datatype Option<T> = None | Some(value: T)

  /** Record ids are decimal renderings of a millisecond clock value. */
  type Id = string

  /** JavaScript truthiness of an optional string: `undefined`, `null` and `''` are falsy. */
  predicate Truthy(s: Option<string>)
  {
    s.Some? && s.value != ""
  }

  /** The value of `a || b` for optional strings. */
  function Or(a: Option<string>, b: Option<string>): (r: Option<string>)
    ensures Truthy(a) ==> r == a
    ensures !Truthy(a) ==> r == b
  {
    if Truthy(a) then a else b
  }

  predicate IsDigit(c: char)
  {
    '0' <= c <= '9'
  }

  function Digit(d: nat): (c: char)
    requires d < 10
    ensures IsDigit(c) && c as int - '0' as int == d
  {
    ('0' as int + d) as char
  }

  /** `n.toString()` for a non-negative integer: its decimal digits, most significant first. */
  function NatToString(n: nat): (s: string)
    ensures 1 <= |s|
    ensures forall i :: 0 <= i < |s| ==> IsDigit(s[i])
    ensures |s| == 1 <==> n < 10
    ensures s[0] == '0' <==> n == 0
    decreases n
  {
    if n < 10 then [Digit(n)] else NatToString(n / 10) + [Digit(n % 10)]
  }

  function DigitValue(c: char): nat
    requires IsDigit(c)
  {
    c as int - '0' as int
  }

  /** The number a string of decimal digits denotes; the partner of NatToString. */
  function DecimalValue(s: string): nat
    requires forall i :: 0 <= i < |s| ==> IsDigit(s[i])
  {
    if s == [] then 0
    else DecimalValue(s[..|s| - 1]) * 10 + DigitValue(s[|s| - 1])
  }

  /** Reading back the digits of `n.toString()` gives `n`. */
  lemma {:induction false} DecimalRoundTrip(n: nat)
    ensures DecimalValue(NatToString(n)) == n
    decreases n
  {
    if n >= 10 {
      DecimalRoundTrip(n / 10);
      var s := NatToString(n);
      assert s[..|s| - 1] == NatToString(n / 10);
    }
  }

  /** Ids made from two different clock values are different, so only two
      records created in the same millisecond collide. */
  lemma ClockIdsDistinct(a: nat, b: nat)
    requires a != b
    ensures NatToString(a) != NatToString(b)
  {
    DecimalRoundTrip(a);
    DecimalRoundTrip(b);
  }

  /** A JavaScript object used as a dictionary: its entries and the order in
      which its keys were first inserted, the order `Object.values` follows. */
  datatype Table<V> = Table(keys: seq<Id>, entries: map<Id, V>)
  {
    ghost predicate Valid()
    {
      && (forall i :: 0 <= i < |keys| ==> keys[i] in entries)
      && (forall k :: k in entries ==> k in keys)
      && (forall i, j :: 0 <= i < j < |keys| ==> keys[i] != keys[j])
    }

    /** `Object.values(this)`. */
    function Values(): (vs: seq<V>)
      requires forall i :: 0 <= i < |keys| ==> keys[i] in entries
      ensures |vs| == |keys|
      ensures forall i :: 0 <= i < |keys| ==> vs[i] == entries[keys[i]]
    {
      seq(|keys|, i requires 0 <= i < |keys| => entries[keys[i]])
    }

    /** `this[k] = v`: a new key goes to the end of the key order, an existing
        key keeps its place. */
    function Put(k: Id, v: V): (t: Table<V>)
      ensures Valid() ==> t.Valid()
      ensures t.entries == entries[k := v]
      ensures k in entries ==> t.keys == keys
      ensures k !in entries ==> t.keys == keys + [k]
    {
      Table(if k in entries then keys else keys + [k], entries[k := v])
    }

    /** `delete this[k]`. */
    function Delete(k: Id): (t: Table<V>)
      ensures Valid() ==> t.Valid()
      ensures t.entries == entries - {k}
      ensures forall i :: 0 <= i < |t.keys| ==> t.keys[i] in keys && t.keys[i] != k
      ensures forall x :: x in keys && x != k ==> x in t.keys
      ensures Subsequence(t.keys, keys)
    {
      var rest := Without(keys, k);
      assert forall x :: x in rest <==> x in keys && x != k;
      assert forall i :: 0 <= i < |rest| ==> rest[i] in rest;
      assert Valid() ==> forall i :: 0 <= i < |rest| ==> rest[i] in entries - {k} by {
        if Valid() {
          forall i | 0 <= i < |rest| ensures rest[i] in entries - {k} {
            assert rest[i] in keys;
          }
        }
      }
      Table(rest, entries - {k})
    }
  }

  /** Writing a key twice leaves the second value, with the key where the first write put it. */
  lemma PutTwice<V>(t: Table<V>, k: Id, a: V, b: V)
    ensures t.Put(k, a).Put(k, b) == t.Put(k, b)
  {
    assert t.Put(k, a).Put(k, b).entries == t.Put(k, b).entries;
  }

  function EmptyTable<V>(): (t: Table<V>)
    ensures t.Valid() && t.keys == [] && t.entries == map[]
  {
    Table([], map[])
  }

  /** `a` is `b` with some elements left out, the rest in their order. */
  predicate Subsequence<T(==)>(a: seq<T>, b: seq<T>)
    decreases |b|
  {
    if a == [] then true
    else if b == [] then false
    else (a[0] == b[0] && Subsequence(a[1..], b[1..])) || Subsequence(a, b[1..])
  }

  /** `keys` with every occurrence of `k` taken out, the rest in order. */
  function Without(keys: seq<Id>, k: Id): (r: seq<Id>)
    ensures |r| <= |keys|
    ensures Subsequence(r, keys)
    ensures forall x :: x in r <==> x in keys && x != k
    ensures (forall i, j :: 0 <= i < j < |keys| ==> keys[i] != keys[j]) ==>
              (forall i, j :: 0 <= i < j < |r| ==> r[i] != r[j])
  {
    if keys == [] then []
    else if keys[0] == k then Without(keys[1..], k)
    else
      var rest := Without(keys[1..], k);
      assert (forall i, j :: 0 <= i < j < |keys| ==> keys[i] != keys[j]) ==> keys[0] !in keys[1..];
      assert ([keys[0]] + rest)[1..] == rest;
      [keys[0]] + rest
  }

  /** Every stored record sits under its own id. */
  ghost predicate ScreenshotsKeyed(t: Table<Screenshot>)
  {
    forall k :: k in t.entries ==> t.entries[k].id == k
  }

  ghost predicate TranscriptsKeyed(t: Table<Transcript>)
  {
    forall k :: k in t.entries ==> t.entries[k].id == k
  }

  /** A pixel rectangle; the content script's selection box and the region
      recorded with a region capture. */
  datatype Rect = Rect(x: int, y: int, width: int, height: int)

  /** The part of a browser tab the coordinator uses. */
  datatype Tab = Tab(windowId: int, url: string, title: string)

  datatype CaptureType = Full | Region

  /** `created` is absent on the sessions the gallery derives from screenshots. */
  datatype Session = Session(id: Id, name: string, created: Option<nat>, screenshotCount: nat)

  datatype Screenshot = Screenshot(
    id: Id,
    sessionId: Option<Id>,
    imageData: string,
    timestamp: nat,
    url: string,
    title: string,
    captureType: CaptureType,
    region: Option<Rect>,
    sequenceNumber: nat,
    transcript: Option<string>)

  datatype Transcript = Transcript(
    id: Id,
    sessionId: Option<Id>,
    startTime: nat,
    endTime: Option<nat>,
    text: string,
    screenshots: seq<Id>)

  /** `session?.id`. */
  function SessionIdOf(s: Option<Session>): (r: Option<Id>)
    ensures r.Some? <==> s.Some?
    ensures s.Some? ==> r.value == s.value.id
  {
    if s.Some? then Some(s.value.id) else None
  }

  /** The messages the extension's parts send; one variant per `action`. */
  datatype Request =
    | Test
    | GetCurrentSession
    | CreateSession(name: string)
    | CaptureScreenshot(tab: Option<Tab>)
    | CaptureRegion(tab: Option<Tab>, region: Rect)
    | StartTranscript(sessionId: Option<Id>)
    | UpdateTranscript(text: string)
    | SaveTranscript(text: string, sessionId: Option<Id>)
    | GetRecordingState
    | ClearAllData
    | StartRegionSelection

  /** The error conditions a reply can carry. */
  datatype Failure =
    | NoActiveTranscript       // 'No active transcript'
    | UnknownAction            // 'Unknown action'
    | NoTabInformation         // 'No tab information available'
    | NoActiveTab              // 'No active tab found'
    | StorageNearlyFull(bytesInUse: nat, quota: nat)

  /** `percentUsed.toFixed(0)` for percentUsed = bytesInUse / quota * 100, rounding halves up. */
  function RoundedPercent(bytesInUse: nat, quota: nat): (p: nat)
    requires quota > 0
    ensures 2 * quota * p <= 200 * bytesInUse + quota < 2 * quota * (p + 1)
  {
    var x, d := 200 * bytesInUse + quota, 2 * quota;
    assert x == d * (x / d) + x % d;
    x / d
  }

  /** The `error` text of a failed reply. */
  function FailureMessage(f: Failure): string
  {
    match f
    case NoActiveTranscript => "No active transcript"
    case UnknownAction => "Unknown action"
    case NoTabInformation => "No tab information available"
    case NoActiveTab => "No active tab found"
    case StorageNearlyFull(bytesInUse, quota) =>
      "Storage nearly full ("
      + (if quota > 0 then NatToString(RoundedPercent(bytesInUse, quota)) else "")
      + "%). Please delete old screenshots or export them first."
  }

  /** Each kind of failure has its own text, so a reply's error names its cause. */
  lemma FailureMessagesDistinct(f: Failure, g: Failure)
    requires !(f.StorageNearlyFull? && g.StorageNearlyFull?)
    requires f != g
    ensures FailureMessage(f) != FailureMessage(g)
  {
    if f.StorageNearlyFull? || g.StorageNearlyFull? {
      FailureMessageStart(f);
      FailureMessageStart(g);
    } else {
      assert |FailureMessage(f)| != |FailureMessage(g)|;
    }
  }

  /** Only the storage refusal starts with 'S'. */
  lemma FailureMessageStart(f: Failure)
    ensures |FailureMessage(f)| > 0
    ensures FailureMessage(f)[0] == 'S' <==> f.StorageNearlyFull?
  {
    if f.StorageNearlyFull? {
      var head := "Storage nearly full (";
      assert FailureMessage(f)[0] == head[0];
    }
  }

  datatype Payload =
    | NoPayload
    | Message(text: string)
    | SessionInfo(session: Option<Session>)
    | Captured(screenshot: Screenshot)
    | TranscriptStarted(transcriptId: Id)
    | TranscriptSaved(transcript: Transcript)

  /** `{success: true, ...}` or `{success: false, error}`. */
  datatype Response = Success(payload: Payload) | Error(failure: Failure)
}
