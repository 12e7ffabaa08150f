/** The `songid` attribute handler of src/base-player.mjs
    (`attributeChangedCallback`), reduced to a sequential run over the
    candidates of the track: for each one the source buffer is created or
    reconfigured, the track is announced, the CDN URLs are tried, and the
    first readable file is streamed into the buffer while the license is
    obtained.  The platform is an environment of oracles: the outcome of
    each CDN fetch, and per attempt the license events, the read at which an
    abort of the file signal is seen and whether the media source closed. */
module Player {
  import opened Wrappers
  import JsMap
  import opened Formats
  import opened Resolver
  import B62
  import Numerals

  type Chunk = seq<bv8>

  /** How the body stream ends once its chunks are read: `done`, or a read that rejects. */
  datatype BodyEnd = Done | ReadFails

  datatype Body = Body(chunks: seq<Chunk>, end: BodyEnd)

  /** A CDN fetch: a response with its `ok` flag and body, or a rejected promise. */
  datatype FetchOutcome = Responds(ok: bool, body: Body) | Rejects

  datatype KeyStatus = Usable | OtherStatus(name: string)

  /** The events of the key session that the handler listens to. */
  datatype LicenseEvent = KeyStatusesChange(statuses: seq<KeyStatus>) | LicenseError

  /** What the platform does during the attempt on one candidate: the key
      session's events in order, the number of reads after which an abort
      of the file signal is seen (if the signal aborts at all), and whether
      the media source has closed, which aborts the outer signal. */
  datatype Attempt = Attempt(license: seq<LicenseEvent>, abortAt: nat, outerAborted: bool)

  /** The oracles: CDN fetches (by attempt number and URL), attempts, and
      whether the player's key container is ready.  The `mediaKeys` promise
      rejects when the certificate cannot be set or when `createMediaKeys`
      or `setMediaKeys` rejects; `keysReady` is false then. */
  datatype Env = Env(cdn: (nat, string) -> FetchOutcome, attempt: nat -> Attempt, keysReady: bool)

  /** The errors the handler's promise can reject with: reading `length` of
      a removed attribute, the exhaustion error, a CDN fetch that rejects,
      the rejection of the key container, and the `InvalidStateError` that
      `endOfStream` throws on a media source that is no longer open. */
  datatype Error = TypeError | PlaybackFailed | FetchRejected | KeysRejected | InvalidState

  /** What the handler does to the media source and the page. */
  datatype Action =
    | AddSourceBuffer(codec: string)
    | Reconfigure(codec: string)
    | Notify(candidate: Candidate)
    | Append(chunk: Chunk)
    | EndOfStream
    | EndOfStreamError(error: Error)

  datatype Outcome = Ignored | Returned | Threw(error: Error) | Stalled

  /** The actions of one call, how its promise ends, and the format table after it. */
  datatype Trace = Trace(actions: seq<Action>, outcome: Outcome, table: Table)

  predicate IsFinal(a: Action) {
    a.EndOfStream? || a.EndOfStreamError?
  }

  // ---------------------------------------------------------------- the reader search

  datatype Search = Found(body: Body) | NoneOk | Rejected

  /** The URLs before position `i` all answered without `ok`. */
  predicate Skipped(env: Env, n: nat, urls: seq<string>, i: nat)
    requires i <= |urls|
  {
    forall j :: 0 <= j < i ==> env.cdn(n, urls[j]).Responds? && !env.cdn(n, urls[j]).ok
  }

  /** The reader loop: the body of the first `ok` response; nothing when no
      response is `ok`; a rejection as soon as a fetch rejects. */
  function FindReaderSpec(env: Env, n: nat, urls: seq<string>): (r: Search)
    ensures r.Found? ==> exists i :: 0 <= i < |urls| && env.cdn(n, urls[i]) == Responds(true, r.body) && Skipped(env, n, urls, i)
    ensures r.Rejected? ==> exists i :: 0 <= i < |urls| && env.cdn(n, urls[i]).Rejects? && Skipped(env, n, urls, i)
    ensures r.NoneOk? <==> Skipped(env, n, urls, |urls|)
  {
    if urls == [] then NoneOk
    else
      match env.cdn(n, urls[0])
      case Rejects => Rejected
      case Responds(ok, body) =>
        if ok then Found(body)
        else
          var r := FindReaderSpec(env, n, urls[1..]);
          assert forall j :: 1 <= j <= |urls| ==> (Skipped(env, n, urls, j) <==> Skipped(env, n, urls[1..], j - 1)) by {
            forall j | 1 <= j <= |urls| ensures Skipped(env, n, urls, j) <==> Skipped(env, n, urls[1..], j - 1) {
              assert forall i :: 0 <= i < j - 1 ==> urls[1..][i] == urls[i + 1];
            }
          }
          r
  }

  method FindReader(env: Env, n: nat, urls: seq<string>) returns (s: Search)
    ensures s == FindReaderSpec(env, n, urls)
  {
    for i := 0 to |urls|
      invariant FindReaderSpec(env, n, urls) == FindReaderSpec(env, n, urls[i..])
    {
      FindReaderStep(env, n, urls, i);
      var res := env.cdn(n, urls[i]);
      if res.Rejects? {
        return Rejected;
      }
      if res.ok {
        return Found(res.body);
      }
    }
    return NoneOk;
  }

  /** One turn of the reader loop, in terms of the search from position `i`. */
  lemma FindReaderStep(env: Env, n: nat, urls: seq<string>, i: nat)
    requires i < |urls|
    ensures var res := env.cdn(n, urls[i]);
      && (res.Rejects? ==> FindReaderSpec(env, n, urls[i..]) == Rejected)
      && (res.Responds? && res.ok ==> FindReaderSpec(env, n, urls[i..]) == Found(res.body))
      && (res.Responds? && !res.ok ==> FindReaderSpec(env, n, urls[i..]) == FindReaderSpec(env, n, urls[i + 1..]))
  {
    assert urls[i..][0] == urls[i];
    assert urls[i..][1..] == urls[i + 1..];
  }

  // ---------------------------------------------------------------- the read loop

  /** The chunks appended, and whether the loop left by `break` rather than
      by a rejected read. */
  datatype Read = Read(appended: seq<Chunk>, completed: bool)

  /** The read loop from read `k` on, with the file signal seen aborted from
      check `abortAt` on when it aborts at all.  Read `k` yields chunk `k`
      while there is one; then it is `done` or rejects.  A chunk is
      appended only when the signal is not aborted and the read not done. */
  function PumpFrom(body: Body, abortAt: Option<nat>, k: nat): (r: Read)
    requires k <= |body.chunks|
    ensures k + |r.appended| <= |body.chunks| && r.appended == body.chunks[k..k + |r.appended|]
    ensures abortAt.None? ==> r == Read(body.chunks[k..], body.end == Done)
    ensures abortAt.Some? && k <= abortAt.value < |body.chunks| ==> r == Read(body.chunks[k..abortAt.value], true)
    ensures abortAt.None? || k <= abortAt.value ==>
      (!r.completed <==> body.end == ReadFails && (abortAt.None? || abortAt.value >= |body.chunks|))
    decreases |body.chunks| - k
  {
    if k == |body.chunks| then Read([], body.end == Done)
    else if abortAt.Some? && abortAt.value <= k then Read([], true)
    else
      var t := PumpFrom(body, abortAt, k + 1);
      PumpStep(body, abortAt, k, t);
      Read([body.chunks[k]] + t.appended, t.completed)
  }

  /** The contract of `PumpFrom` at read `k`, from that of read `k + 1`
      when chunk `k` is appended. */
  lemma PumpStep(body: Body, abortAt: Option<nat>, k: nat, t: Read)
    requires k < |body.chunks| && (abortAt.None? || abortAt.value > k)
    requires k + 1 + |t.appended| <= |body.chunks| && t.appended == body.chunks[k + 1..k + 1 + |t.appended|]
    requires abortAt.None? ==> t == Read(body.chunks[k + 1..], body.end == Done)
    requires abortAt.Some? && k + 1 <= abortAt.value < |body.chunks| ==> t == Read(body.chunks[k + 1..abortAt.value], true)
    requires abortAt.None? || k + 1 <= abortAt.value ==>
      (!t.completed <==> body.end == ReadFails && (abortAt.None? || abortAt.value >= |body.chunks|))
    ensures var r := Read([body.chunks[k]] + t.appended, t.completed);
      && k + |r.appended| <= |body.chunks| && r.appended == body.chunks[k..k + |r.appended|]
      && (abortAt.None? ==> r == Read(body.chunks[k..], body.end == Done))
      && (abortAt.Some? && k <= abortAt.value < |body.chunks| ==> r == Read(body.chunks[k..abortAt.value], true))
      && (abortAt.None? || k <= abortAt.value ==>
        (!r.completed <==> body.end == ReadFails && (abortAt.None? || abortAt.value >= |body.chunks|)))
  {
    assert body.chunks[k..k + 1 + |t.appended|] == [body.chunks[k]] + body.chunks[k + 1..k + 1 + |t.appended|];
    assert abortAt.None? ==> body.chunks[k..] == [body.chunks[k]] + body.chunks[k + 1..];
    assert abortAt.Some? && k < abortAt.value <= |body.chunks| ==>
      body.chunks[k..abortAt.value] == [body.chunks[k]] + body.chunks[k + 1..abortAt.value];
  }

  function Pump(body: Body, abortAt: Option<nat>): Read {
    PumpFrom(body, abortAt, 0)
  }

  /** The loop's result once `done` has read `k` reads. */
  function Resume(done: seq<Chunk>, body: Body, abortAt: Option<nat>, k: nat): Read
    requires k <= |body.chunks|
  {
    var t := PumpFrom(body, abortAt, k);
    Read(done + t.appended, t.completed)
  }

  /** Appending chunk `k` moves the loop one read on. */
  lemma ResumeStep(done: seq<Chunk>, body: Body, abortAt: Option<nat>, k: nat)
    requires k < |body.chunks| && !(abortAt.Some? && abortAt.value <= k)
    ensures Resume(done, body, abortAt, k) == Resume(done + [body.chunks[k]], body, abortAt, k + 1)
  {
    var t := PumpFrom(body, abortAt, k + 1);
    assert done + ([body.chunks[k]] + t.appended) == (done + [body.chunks[k]]) + t.appended;
  }

  lemma ResumeStart(body: Body, abortAt: Option<nat>)
    ensures Pump(body, abortAt) == Resume([], body, abortAt, 0)
  {
    assert [] + PumpFrom(body, abortAt, 0).appended == PumpFrom(body, abortAt, 0).appended;
  }

  /** Past the last chunk the loop ends as the stream does. */
  lemma ResumeEnd(done: seq<Chunk>, body: Body, abortAt: Option<nat>)
    ensures Resume(done, body, abortAt, |body.chunks|) == Read(done, body.end == Done)
  {
    assert done + [] == done;
  }

  /** Once the signal is seen aborted the loop breaks. */
  lemma ResumeAborted(done: seq<Chunk>, body: Body, abortAt: Option<nat>, k: nat)
    requires k < |body.chunks| && abortAt.Some? && abortAt.value <= k
    ensures Resume(done, body, abortAt, k) == Read(done, true)
  {
    assert done + [] == done;
  }

  /** The `while (1)` loop at the heart of the handler. */
  method ReadLoop(body: Body, abortAt: Option<nat>) returns (appended: seq<Chunk>, completed: bool)
    ensures Read(appended, completed) == Pump(body, abortAt)
  {
    appended := [];
    var k := 0;
    ResumeStart(body, abortAt);
    while true
      invariant k <= |body.chunks|
      invariant Pump(body, abortAt) == Resume(appended, body, abortAt, k)
      decreases |body.chunks| - k
    {
      if k == |body.chunks| {
        ResumeEnd(appended, body, abortAt);
        if body.end == ReadFails {
          completed := false;
          return;
        }
        break;
      }
      if abortAt.Some? && abortAt.value <= k {
        ResumeAborted(appended, body, abortAt, k);
        break;
      }
      ResumeStep(appended, body, abortAt, k);
      appended := appended + [body.chunks[k]];
      k := k + 1;
    }
    completed := true;
  }

  function Appends(cs: seq<Chunk>): (r: seq<Action>)
    ensures |r| == |cs| && forall i :: 0 <= i < |cs| ==> r[i] == Append(cs[i])
  {
    if cs == [] then [] else [Append(cs[0])] + Appends(cs[1..])
  }

  // ---------------------------------------------------------------- the license

  datatype Settlement = Granted | Denied | Unsettled

  /** At least one key, and every key usable. */
  predicate AllUsable(statuses: seq<KeyStatus>) {
    |statuses| > 0 && forall i :: 0 <= i < |statuses| ==> statuses[i] == Usable
  }

  predicate Settles(e: LicenseEvent) {
    e.LicenseError? || AllUsable(e.statuses)
  }

  /** The `licensed` promise: the first event that settles it decides. */
  function Settle(events: seq<LicenseEvent>): (r: Settlement)
    ensures r == Unsettled <==> forall i :: 0 <= i < |events| ==> !Settles(events[i])
    ensures r != Unsettled ==> exists i :: (
      && 0 <= i < |events| && Settles(events[i])
      && (forall j :: 0 <= j < i ==> !Settles(events[j]))
      && (r == Denied <==> events[i].LicenseError?))
  {
    if events == [] then Unsettled
    else if events[0].LicenseError? then Denied
    else if AllUsable(events[0].statuses) then Granted
    else
      var r := Settle(events[1..]);
      assert forall i :: 1 <= i < |events| ==> events[i] == events[1..][i - 1];
      if r == Unsettled then r
      else
        ghost var i :| (
          && 0 <= i < |events[1..]| && Settles(events[1..][i])
          && (forall j :: 0 <= j < i ==> !Settles(events[1..][j]))
          && (r == Denied <==> events[1..][i].LicenseError?));
        assert Settles(events[i + 1]) && forall j :: 0 <= j < i + 1 ==> !Settles(events[j]);
        r
  }

  /** The table after the session's events: every `license-error` demotes the format. */
  function AfterLicense(f: Table, c: Candidate, events: seq<LicenseEvent>): Table
    decreases |events|
  {
    if events == [] then f
    else AfterLicense(if events[0].LicenseError? then Demoted(f, c.format, c.codec) else f, c, events[1..])
  }

  predicate HasLicenseError(events: seq<LicenseEvent>) {
    exists i :: 0 <= i < |events| && events[i].LicenseError?
  }

  /** However many license errors arrive, the format is demoted once or not at all. */
  lemma {:induction false} LicenseDemotes(f: Table, c: Candidate, events: seq<LicenseEvent>)
    requires JsMap.DistinctKeys(f)
    ensures AfterLicense(f, c, events) == if HasLicenseError(events) then Demoted(f, c.format, c.codec) else f
    decreases |events|
  {
    if events != [] {
      var rest := events[1..];
      assert HasLicenseError(events) <==> events[0].LicenseError? || HasLicenseError(rest) by {
        if HasLicenseError(events) && !events[0].LicenseError? {
          var i :| 0 <= i < |events| && events[i].LicenseError?;
          assert rest[i - 1] == events[i];
        }
        if HasLicenseError(rest) {
          var i :| 0 <= i < |rest| && rest[i].LicenseError?;
          assert events[i + 1] == rest[i];
        }
      }
      if events[0].LicenseError? {
        var d := Demoted(f, c.format, c.codec);
        LicenseDemotes(d, c, rest);
        DemotedIdempotent(f, c.format, c.codec);
      } else {
        LicenseDemotes(f, c, rest);
      }
    }
  }

  /** Dispatching the session's events to the `license-error` listener. */
  method DispatchLicense(table: FormatTable, c: Candidate, events: seq<LicenseEvent>)
    requires table.Valid()
    modifies table
    ensures table.Valid() && table.entries == AfterLicense(old(table.entries), c, events)
  {
    for i := 0 to |events|
      invariant table.Valid()
      invariant AfterLicense(old(table.entries), c, events) == AfterLicense(table.entries, c, events[i..])
    {
      assert events[i..][1..] == events[i + 1..];
      if events[i].LicenseError? {
        table.Demote(c.format, c.codec);
      }
    }
  }

  // ---------------------------------------------------------------- one attempt

  /** How the body of the `for await` loop ends for one candidate:
      `continue`; `Closed`, leaving the loop once the media source has
      closed, by the `break` of the aborted signal or by a rejected CDN
      fetch; `return` on an open media source; a rejected CDN fetch on an
      open media source escaping to the outer `catch`; or waiting forever on
      a license that never settles.  On a closed media source `endOfStream()`
      throws, so a granted license there ends in the `break` too. */
  datatype Exit = Continue | Closed | Return | Raise | Hang

  datatype AttemptResult = AttemptResult(actions: seq<Action>, exit: Exit, table: Table)

  function BufferAction(n: nat, c: Candidate): Action {
    if n == 0 then AddSourceBuffer(c.codec) else Reconfigure(c.codec)
  }

  /** The file signal aborts when the outer signal does or the license is denied. */
  function FileAbort(a: Attempt): Option<nat> {
    if a.outerAborted || Settle(a.license) == Denied then Some(a.abortAt) else None
  }

  /** The two opening steps of an attempt followed by appends. */
  lemma HeadThenAppends(n: nat, c: Candidate, cs: seq<Chunk>)
    ensures var acts := [BufferAction(n, c), Notify(c)] + Appends(cs);
      && |acts| >= 2 && acts[0] == BufferAction(n, c) && acts[1] == Notify(c)
      && forall i :: 2 <= i < |acts| ==> acts[i].Append?
  {
    var acts := [BufferAction(n, c), Notify(c)] + Appends(cs);
    forall i | 2 <= i < |acts| ensures acts[i].Append? {
      assert acts[i] == Appends(cs)[i - 2];
    }
  }

  /** Attempt number `n`, on candidate `c`, with the table at `f`. */
  function AttemptSpec(env: Env, n: nat, c: Candidate, f: Table): (r: AttemptResult)
    ensures |r.actions| >= 2 && r.actions[0] == BufferAction(n, c) && r.actions[1] == Notify(c)
    ensures forall i :: 2 <= i < |r.actions| ==> r.actions[i].Append?
    ensures JsMap.DistinctKeys(f) && JsMap.Get(f, c.format) == Some(c.codec) ==>
      && JsMap.DistinctKeys(r.table) && |r.table| == |f|
      && forall k :: JsMap.Get(r.table, k) == JsMap.Get(f, k)
  {
    var head := [BufferAction(n, c), Notify(c)];
    var a := env.attempt(n);
    match FindReaderSpec(env, n, c.cdnurls)
    case Rejected => AttemptResult(head, if a.outerAborted then Closed else Raise, f)
    case NoneOk => AttemptResult(head, Continue, f)
    case Found(body) =>
      var settle := Settle(a.license);
      var read := Pump(body, FileAbort(a));
      var exit :=
        if read.completed && settle == Granted && !a.outerAborted then Return
        else if read.completed && settle == Unsettled then Hang
        else if a.outerAborted then Closed
        else Continue;
      var g := AfterLicense(f, c, a.license);
      HeadThenAppends(n, c, read.appended);
      if JsMap.DistinctKeys(f) && JsMap.Get(f, c.format) == Some(c.codec) then
        LicenseDemotes(f, c, a.license);
        DemotedKeys(f, c.format, c.codec);
        AttemptResult(head + Appends(read.appended), exit, g)
      else
        AttemptResult(head + Appends(read.appended), exit, g)
  }

  /** The body of the `for await` loop for candidate `c`, as attempt number `n`. */
  method TryCandidate(table: FormatTable, env: Env, n: nat, c: Candidate) returns (actions: seq<Action>, exit: Exit)
    requires table.Valid()
    modifies table
    ensures table.Valid()
    ensures AttemptResult(actions, exit, table.entries) == AttemptSpec(env, n, c, old(table.entries))
  {
    actions := [BufferAction(n, c), Notify(c)];
    var att := env.attempt(n);
    var search := FindReader(env, n, c.cdnurls);
    if search.Rejected? {
      return actions, if att.outerAborted then Closed else Raise;
    }
    if search.NoneOk? {
      return actions, Continue;
    }
    var settle := Settle(att.license);
    DispatchLicense(table, c, att.license);
    var appended, completed := ReadLoop(search.body, FileAbort(att));
    actions := actions + Appends(appended);
    if completed && settle == Granted && !att.outerAborted {
      exit := Return;
    } else if completed && settle == Unsettled {
      exit := Hang;
    } else if att.outerAborted {
      exit := Closed;
    } else {
      exit := Continue;
    }
  }

  // ---------------------------------------------------------------- the whole run

  /** What follows an attempt that ends the loop: the `endOfStream` call,
      if any, and how the handler's promise ends.  The outer `catch` is the
      evidently intended one: `endOfStream` with an `EndOfStreamError` value,
      recorded with the error it stands for, and then the caught error
      rethrown.  On a closed media source that call throws an
      `InvalidStateError` instead, which the handler rejects with.
      `TailAsWritten` is the catch as the source writes it. */
  function Tail(exit: Exit): seq<Action> {
    match exit
    case Return => [EndOfStream]
    case Raise => [EndOfStreamError(FetchRejected)]
    case _ => []
  }

  function Final(exit: Exit): Outcome {
    match exit
    case Return => Returned
    case Hang => Stalled
    case Raise => Threw(FetchRejected)
    case Closed => Threw(InvalidState)
    case _ => Threw(PlaybackFailed)
  }

  /** The `for await` loop from the generator state `items`, with the table
      at `f`, at attempt number `n`, and the outer `catch`. */
  function Run(cat: Catalogue, env: Env, items: seq<Item>, f: Table, n: nat): (r: Trace)
    requires JsMap.DistinctKeys(f) && Coherent(items, f)
    ensures JsMap.DistinctKeys(r.table) && |r.table| == |f|
    ensures forall k :: JsMap.Get(r.table, k) == JsMap.Get(f, k)
    decreases Work(cat, items, |f|)
  {
    var next := NextSpec(cat, items, f);
    NextCoherent(cat, items, f);
    match next.0
    case None => Trace([EndOfStreamError(PlaybackFailed)], Threw(PlaybackFailed), f)
    case Some(c) =>
      var a := AttemptSpec(env, n, c, f);
      if a.exit != Continue then Trace(a.actions + Tail(a.exit), Final(a.exit), a.table)
      else
        CoherentSameGets(next.1, f, a.table);
        var t := Run(cat, env, next.1, a.table, n + 1);
        Trace(a.actions + t.actions, t.outcome, t.table)
  }

  /** A turn of the loop that ends it. */
  lemma RunFinish(cat: Catalogue, env: Env, items: seq<Item>, f: Table, n: nat)
    requires JsMap.DistinctKeys(f) && Coherent(items, f) && NextSpec(cat, items, f).0.Some?
    requires AttemptSpec(env, n, NextSpec(cat, items, f).0.value, f).exit != Continue
    ensures var a := AttemptSpec(env, n, NextSpec(cat, items, f).0.value, f);
      Run(cat, env, items, f, n) == Trace(a.actions + Tail(a.exit), Final(a.exit), a.table)
  {
  }

  /** A turn of the loop that goes on to the next candidate. */
  lemma RunContinue(cat: Catalogue, env: Env, items: seq<Item>, f: Table, n: nat)
    requires JsMap.DistinctKeys(f) && Coherent(items, f) && NextSpec(cat, items, f).0.Some?
    requires AttemptSpec(env, n, NextSpec(cat, items, f).0.value, f).exit == Continue
    ensures var next := NextSpec(cat, items, f);
      var a := AttemptSpec(env, n, next.0.value, f);
      && JsMap.DistinctKeys(a.table) && |a.table| == |f| && Coherent(next.1, a.table)
      && Run(cat, env, items, f, n) == Join(a.actions, Run(cat, env, next.1, a.table, n + 1))
  {
    var next := NextSpec(cat, items, f);
    NextCoherent(cat, items, f);
    var a := AttemptSpec(env, n, next.0.value, f);
    CoherentSameGets(next.1, f, a.table);
  }

  // ---------------------------------------------------------------- properties of an attempt

  /** An attempt returns exactly when a reader was found, the read loop
      left by `break`, the license was granted and the media source is still
      open; the whole body was then appended and the stream was `done`. */
  lemma AttemptSucceeds(env: Env, n: nat, c: Candidate, f: Table)
    ensures var a := AttemptSpec(env, n, c, f);
      var s := FindReaderSpec(env, n, c.cdnurls);
      var att := env.attempt(n);
      && (a.exit == Return <==> s.Found? && Pump(s.body, FileAbort(att)).completed && Settle(att.license) == Granted && !att.outerAborted)
      && (a.exit == Return ==>
            a.actions == [BufferAction(n, c), Notify(c)] + Appends(s.body.chunks) && s.body.end == Done)
  {
  }

  /** What is appended is, in read order, a prefix of the body that was
      found; nothing is appended when no reader was found. */
  lemma AttemptAppends(env: Env, n: nat, c: Candidate, f: Table)
    ensures var a := AttemptSpec(env, n, c, f);
      var s := FindReaderSpec(env, n, c.cdnurls);
      && (!s.Found? ==> a.actions == [BufferAction(n, c), Notify(c)])
      && (s.Found? ==> exists k :: (0 <= k <= |s.body.chunks| &&
            a.actions == [BufferAction(n, c), Notify(c)] + Appends(s.body.chunks[..k])))
  {
    var s := FindReaderSpec(env, n, c.cdnurls);
    if s.Found? {
      var read := Pump(s.body, FileAbort(env.attempt(n)));
      assert read.appended == s.body.chunks[..|read.appended|];
    }
  }

  /** The format is demoted exactly when a reader was found and the
      session reported a license error; the table is otherwise untouched. */
  lemma AttemptDemotes(env: Env, n: nat, c: Candidate, f: Table)
    requires JsMap.DistinctKeys(f)
    ensures AttemptSpec(env, n, c, f).table ==
      if FindReaderSpec(env, n, c.cdnurls).Found? && HasLicenseError(env.attempt(n).license)
      then Demoted(f, c.format, c.codec) else f
  {
    LicenseDemotes(f, c, env.attempt(n).license);
  }

  /** A failed stream or a denied license moves on to the next candidate,
      unless the media source has closed: then the loop is left, as it is
      for a granted license (whose `endOfStream()` throws) or a rejected
      fetch on a closed source.  Only an unsettled license waits. */
  lemma AttemptFails(env: Env, n: nat, c: Candidate, f: Table)
    ensures var a := AttemptSpec(env, n, c, f);
      var s := FindReaderSpec(env, n, c.cdnurls);
      var att := env.attempt(n);
      var failed := s.Found? && (!Pump(s.body, FileAbort(att)).completed || Settle(att.license) == Denied);
      && (a.exit == Closed <==>
            att.outerAborted && (s.Rejected? || (s.Found? && !(Pump(s.body, FileAbort(att)).completed && Settle(att.license) == Unsettled))))
      && (a.exit == Continue <==> s.NoneOk? || (failed && !att.outerAborted))
      && (a.exit == Raise <==> s.Rejected? && !att.outerAborted)
      && (a.exit == Hang <==> s.Found? && Pump(s.body, FileAbort(att)).completed && Settle(att.license) == Unsettled)
  {
  }

  // ---------------------------------------------------------------- properties of a run

  predicate NoFinal(acts: seq<Action>) {
    forall i :: 0 <= i < |acts| ==> !IsFinal(acts[i])
  }

  /** `endOfStream` is called once, as the last action, with no argument
      exactly when the promise resolves and with the error it rejects with
      otherwise; a promise that never settles never calls it, and on a
      closed media source the call throws, so nothing is ended. */
  predicate Finalised(r: Trace) {
    && !r.outcome.Ignored?
    && (r.outcome.Stalled? || r.outcome == Threw(InvalidState) ==> NoFinal(r.actions))
    && (!r.outcome.Stalled? && r.outcome != Threw(InvalidState) ==>
          && |r.actions| > 0
          && r.actions[|r.actions| - 1] == (if r.outcome.Returned? then EndOfStream else EndOfStreamError(r.outcome.error))
          && NoFinal(r.actions[..|r.actions| - 1]))
  }

  lemma AttemptNoFinal(env: Env, n: nat, c: Candidate, f: Table)
    ensures NoFinal(AttemptSpec(env, n, c, f).actions)
  {
  }

  lemma FinalisedJoin(acts: seq<Action>, t: Trace)
    requires NoFinal(acts) && Finalised(t)
    ensures Finalised(Join(acts, t))
  {
    var r := Join(acts, t);
    if !t.outcome.Stalled? && t.outcome != Threw(InvalidState) {
      assert r.actions[..|r.actions| - 1] == acts + t.actions[..|t.actions| - 1];
    }
  }

  lemma FinalisedFinish(acts: seq<Action>, exit: Exit, table: Table)
    requires NoFinal(acts) && exit != Continue
    ensures Finalised(Trace(acts + Tail(exit), Final(exit), table))
  {
    if exit != Hang && exit != Closed {
      assert (acts + Tail(exit))[..|acts|] == acts;
    } else {
      assert acts + Tail(exit) == acts;
    }
  }

  /** Every run ends as `Finalised` says. */
  lemma {:induction false} RunFinalises(cat: Catalogue, env: Env, items: seq<Item>, f: Table, n: nat)
    requires JsMap.DistinctKeys(f) && Coherent(items, f)
    ensures Finalised(Run(cat, env, items, f, n))
    ensures Run(cat, env, items, f, n).outcome.Threw? ==> Run(cat, env, items, f, n).outcome.error in {PlaybackFailed, FetchRejected, InvalidState}
    decreases Work(cat, items, |f|)
  {
    var next := NextSpec(cat, items, f);
    NextCoherent(cat, items, f);
    if next.0.None? {
      RunExhausted(cat, env, items, f, n);
      assert [EndOfStreamError(PlaybackFailed)][..0] == [];
    } else if AttemptSpec(env, n, next.0.value, f).exit == Continue {
      RunContinue(cat, env, items, f, n);
      var a := AttemptSpec(env, n, next.0.value, f);
      RunFinalises(cat, env, next.1, a.table, n + 1);
      AttemptNoFinal(env, n, next.0.value, f);
      FinalisedJoin(a.actions, Run(cat, env, next.1, a.table, n + 1));
    } else {
      FinalisedStop(cat, env, items, f, n);
    }
  }

  /** A run that stops at an attempt ends as that attempt's exit says. */
  lemma FinalisedStop(cat: Catalogue, env: Env, items: seq<Item>, f: Table, n: nat)
    requires JsMap.DistinctKeys(f) && Coherent(items, f) && NextSpec(cat, items, f).0.Some?
    requires AttemptSpec(env, n, NextSpec(cat, items, f).0.value, f).exit != Continue
    ensures Finalised(Run(cat, env, items, f, n))
    ensures Run(cat, env, items, f, n).outcome.Threw? ==> Run(cat, env, items, f, n).outcome.error in {PlaybackFailed, FetchRejected, InvalidState}
  {
    var next := NextSpec(cat, items, f);
    var a := AttemptSpec(env, n, next.0.value, f);
    RunFinish(cat, env, items, f, n);
    AttemptNoFinal(env, n, next.0.value, f);
    FinalisedFinish(a.actions, a.exit, a.table);
  }

  /** The handler's promise: ignored exactly for an unchanged attribute,
      a `TypeError` with nothing done exactly for a removed one, a rejection
      with nothing done to the stream exactly when the key container
      rejected, and otherwise a run that ends as `Finalised` says. */
  lemma CallbackFinalises(cat: Catalogue, env: Env, fuel: nat, f: Table, oldId: Option<string>, newId: Option<string>)
    requires JsMap.DistinctKeys(f)
    ensures var r := Callback(cat, env, fuel, f, oldId, newId);
      && (r.outcome.Ignored? <==> oldId == newId)
      && (r.outcome == Threw(TypeError) <==> oldId != newId && newId.None?)
      && (r.outcome == Threw(KeysRejected) <==> oldId != newId && newId.Some? && !env.keysReady)
      && (oldId != newId && newId.Some? && !env.keysReady ==> r.actions == [] && r.table == f)
      && (oldId != newId && newId.Some? && env.keysReady ==> Finalised(r))
  {
    if oldId != newId && newId.Some? && env.keysReady {
      var items := [Fetch(Gid(newId.value), fuel)];
      assert Coherent(items, f);
      RunFinalises(cat, env, items, f, 0);
      assert Callback(cat, env, fuel, f, oldId, newId) == Run(cat, env, items, f, 0);
    }
  }

  // ---------------------------------------------------------------- the outer catch as written

  /** The outer `catch` as src/base-player.mjs:217-219 writes it: the caught
      Error object is passed to `endOfStream`, whose argument must be one of
      the `EndOfStreamError` values "network" and "decode".  Converting the
      object throws a `TypeError` before the call does anything, so the
      media source stays open and `throw e` is never reached. */
  function TailAsWritten(exit: Exit): seq<Action> {
    if exit == Return then [EndOfStream] else []
  }

  function FinalAsWritten(exit: Exit): Outcome {
    match exit
    case Return => Returned
    case Hang => Stalled
    case _ => Threw(TypeError)
  }

  lemma NoFinalAppend(a: seq<Action>, b: seq<Action>)
    requires NoFinal(a) && NoFinal(b)
    ensures NoFinal(a + b)
  {
  }

  /** The run with the outer `catch` as written: a run that fails never
      ends the stream and always rejects with a `TypeError`. */
  function RunAsWritten(cat: Catalogue, env: Env, items: seq<Item>, f: Table, n: nat): (r: Trace)
    requires JsMap.DistinctKeys(f) && Coherent(items, f)
    ensures r.outcome.Threw? ==> r.outcome.error == TypeError && NoFinal(r.actions)
    decreases Work(cat, items, |f|)
  {
    var next := NextSpec(cat, items, f);
    NextCoherent(cat, items, f);
    match next.0
    case None => Trace([], Threw(TypeError), f)
    case Some(c) =>
      var a := AttemptSpec(env, n, c, f);
      AttemptNoFinal(env, n, c, f);
      if a.exit != Continue then
        assert a.exit != Return ==> a.actions + TailAsWritten(a.exit) == a.actions;
        Trace(a.actions + TailAsWritten(a.exit), FinalAsWritten(a.exit), a.table)
      else
        CoherentSameGets(next.1, f, a.table);
        var t := RunAsWritten(cat, env, next.1, a.table, n + 1);
        if t.outcome.Threw? then
          NoFinalAppend(a.actions, t.actions);
          Trace(a.actions + t.actions, t.outcome, t.table)
        else Trace(a.actions + t.actions, t.outcome, t.table)
  }

  /** `w` is `r` with the outer `catch` as written: where `r` ends by
      calling `endOfStream` for its error and rethrowing it, `w` has no such
      call and rejects with a `TypeError`; otherwise the two are the same. */
  predicate CatchAsWritten(r: Trace, w: Trace) {
    && (!r.outcome.Threw? ==> w == r)
    && (r.outcome == Threw(InvalidState) ==> w == Trace(r.actions, Threw(TypeError), r.table))
    && (r.outcome.Threw? && r.outcome != Threw(InvalidState) ==>
          |r.actions| > 0 && r.actions[|r.actions| - 1] == EndOfStreamError(r.outcome.error) &&
          w == Trace(r.actions[..|r.actions| - 1], Threw(TypeError), r.table))
  }

  lemma CatchJoin(acts: seq<Action>, r: Trace, w: Trace)
    requires CatchAsWritten(r, w)
    ensures CatchAsWritten(Join(acts, r), Join(acts, w))
  {
    if r.outcome.Threw? && r.outcome != Threw(InvalidState) {
      assert (acts + r.actions)[..|acts + r.actions| - 1] == acts + r.actions[..|r.actions| - 1];
    }
  }

  lemma CatchStop(acts: seq<Action>, exit: Exit, table: Table)
    requires exit != Continue
    ensures CatchAsWritten(Trace(acts + Tail(exit), Final(exit), table),
                           Trace(acts + TailAsWritten(exit), FinalAsWritten(exit), table))
  {
    if exit == Raise {
      assert (acts + Tail(exit))[..|acts|] == acts;
    }
    if exit != Return {
      assert acts + TailAsWritten(exit) == acts;
    }
    if exit == Closed || exit == Hang {
      assert acts + Tail(exit) == acts;
    }
  }

  /** A turn of the loop as written that ends it. */
  lemma RunAsWrittenFinish(cat: Catalogue, env: Env, items: seq<Item>, f: Table, n: nat)
    requires JsMap.DistinctKeys(f) && Coherent(items, f) && NextSpec(cat, items, f).0.Some?
    requires AttemptSpec(env, n, NextSpec(cat, items, f).0.value, f).exit != Continue
    ensures var a := AttemptSpec(env, n, NextSpec(cat, items, f).0.value, f);
      RunAsWritten(cat, env, items, f, n) == Trace(a.actions + TailAsWritten(a.exit), FinalAsWritten(a.exit), a.table)
  {
  }

  /** A turn of the loop as written that goes on to the next candidate. */
  lemma RunAsWrittenContinue(cat: Catalogue, env: Env, items: seq<Item>, f: Table, n: nat)
    requires JsMap.DistinctKeys(f) && Coherent(items, f) && NextSpec(cat, items, f).0.Some?
    requires AttemptSpec(env, n, NextSpec(cat, items, f).0.value, f).exit == Continue
    ensures var next := NextSpec(cat, items, f);
      var a := AttemptSpec(env, n, next.0.value, f);
      && JsMap.DistinctKeys(a.table) && Coherent(next.1, a.table)
      && RunAsWritten(cat, env, items, f, n) == Join(a.actions, RunAsWritten(cat, env, next.1, a.table, n + 1))
  {
    var next := NextSpec(cat, items, f);
    NextCoherent(cat, items, f);
    var a := AttemptSpec(env, n, next.0.value, f);
    CoherentSameGets(next.1, f, a.table);
  }

  /** The two runs differ only in the outer `catch`. */
  lemma {:induction false} RunAsWrittenCatch(cat: Catalogue, env: Env, items: seq<Item>, f: Table, n: nat)
    requires JsMap.DistinctKeys(f) && Coherent(items, f)
    ensures CatchAsWritten(Run(cat, env, items, f, n), RunAsWritten(cat, env, items, f, n))
    decreases Work(cat, items, |f|)
  {
    var next := NextSpec(cat, items, f);
    NextCoherent(cat, items, f);
    if next.0.None? {
      RunExhausted(cat, env, items, f, n);
      assert [EndOfStreamError(PlaybackFailed)][..0] == [];
    } else {
      var a := AttemptSpec(env, n, next.0.value, f);
      if a.exit == Continue {
        RunContinue(cat, env, items, f, n);
        RunAsWrittenContinue(cat, env, items, f, n);
        RunAsWrittenCatch(cat, env, next.1, a.table, n + 1);
        CatchJoin(a.actions, Run(cat, env, next.1, a.table, n + 1), RunAsWritten(cat, env, next.1, a.table, n + 1));
      } else {
        RunFinish(cat, env, items, f, n);
        RunAsWrittenFinish(cat, env, items, f, n);
        CatchStop(a.actions, a.exit, a.table);
      }
    }
  }

  /** A track whose metadata cannot be fetched: `Run` ends the stream with
      the exhaustion error and rethrows it, while the run as written rejects
      with a `TypeError` and leaves the stream open. */
  lemma UnknownTrackAsWritten(cat: Catalogue, env: Env, gid: string, fuel: nat, f: Table)
    requires JsMap.DistinctKeys(f) && cat.metadata(gid).None?
    ensures Coherent([Fetch(gid, fuel)], f)
    ensures Run(cat, env, [Fetch(gid, fuel)], f, 0) == Trace([EndOfStreamError(PlaybackFailed)], Threw(PlaybackFailed), f)
    ensures RunAsWritten(cat, env, [Fetch(gid, fuel)], f, 0) == Trace([], Threw(TypeError), f)
  {
    assert Coherent([Fetch(gid, fuel)], f);
    assert Expand(cat, gid, fuel, f) == [];
    assert NextSpec(cat, [Fetch(gid, fuel)], f) == NextSpec(cat, [], f) by {
      assert Expand(cat, gid, fuel, f) + [Fetch(gid, fuel)][1..] == [];
    }
  }

  /** The candidates announced, in order. */
  function Notified(acts: seq<Action>): seq<Candidate> {
    if acts == [] then [] else (if acts[0].Notify? then [acts[0].candidate] else []) + Notified(acts[1..])
  }

  lemma {:induction false} NotifiedAppend(a: seq<Action>, b: seq<Action>)
    ensures Notified(a + b) == Notified(a) + Notified(b)
  {
    if a == [] {
      assert a + b == b;
    } else {
      assert (a + b)[0] == a[0];
      assert (a + b)[1..] == a[1..] + b;
      NotifiedAppend(a[1..], b);
    }
  }

  lemma {:induction false} NotifiedAppends(cs: seq<Chunk>)
    ensures Notified(Appends(cs)) == []
  {
    if cs != [] {
      assert Appends(cs)[1..] == Appends(cs[1..]);
      NotifiedAppends(cs[1..]);
    }
  }

  /** An attempt announces its candidate and nothing else. */
  lemma AttemptNotifies(env: Env, n: nat, c: Candidate, f: Table, tail: seq<Action>)
    requires forall i :: 0 <= i < |tail| ==> !tail[i].Notify?
    ensures Notified(AttemptSpec(env, n, c, f).actions + tail) == [c]
  {
    OneNotify(AttemptSpec(env, n, c, f).actions, c, tail);
  }

  /** Actions that start with a buffer step and one announcement of `c`,
      then only appends, announce `c` and nothing else. */
  lemma OneNotify(acts: seq<Action>, c: Candidate, tail: seq<Action>)
    requires |acts| >= 2 && !acts[0].Notify? && acts[1] == Notify(c)
    requires forall i :: 2 <= i < |acts| ==> acts[i].Append?
    requires forall i :: 0 <= i < |tail| ==> !tail[i].Notify?
    ensures Notified(acts + tail) == [c]
  {
    var rest := acts[2..];
    assert acts == [acts[0], acts[1]] + rest;
    NotifiedAppend(acts, tail);
    NotifiedAppend([acts[0], acts[1]], rest);
    assert Notified([acts[0], acts[1]]) == [c] by {
      assert [acts[0], acts[1]][1..] == [acts[1]];
      assert [acts[1]][1..] == [];
    }
    NoNotify(rest);
    NoNotify(tail);
  }

  lemma {:induction false} NoNotify(acts: seq<Action>)
    requires forall i :: 0 <= i < |acts| ==> !acts[i].Notify?
    ensures Notified(acts) == []
  {
    if acts != [] {
      NoNotify(acts[1..]);
    }
  }

  /** No attempt sees a license error. */
  ghost predicate NoLicenseErrors(env: Env) {
    forall m: nat :: !HasLicenseError(env.attempt(m).license)
  }

  /** An attempt announcing `c` followed by a run announcing a prefix of
      `rest` announces a prefix of `[c] + rest`. */
  lemma PrefixJoin(acts: seq<Action>, more: seq<Action>, c: Candidate, rest: seq<Candidate>)
    requires Notified(acts) == [c] && Notified(more) <= rest
    ensures Notified(acts + more) <= [c] + rest
  {
    NotifiedAppend(acts, more);
  }

  /** Without license errors the table never changes, and the candidates
      tried are, in order, the first of those the generator has pending. */
  lemma {:induction false} NotifiedPrefix(cat: Catalogue, env: Env, items: seq<Item>, f: Table, n: nat)
    requires JsMap.DistinctKeys(f) && Coherent(items, f) && NoLicenseErrors(env)
    ensures Run(cat, env, items, f, n).table == f
    ensures Notified(Run(cat, env, items, f, n).actions) <= Pending(cat, items, f)
    decreases Work(cat, items, |f|)
  {
    var next := NextSpec(cat, items, f);
    NextCoherent(cat, items, f);
    if next.0.None? {
      NotifiedExhausted(cat, env, items, f, n);
    } else if AttemptSpec(env, n, next.0.value, f).exit == Continue {
      NotifiedPrefix(cat, env, next.1, f, n + 1);
      NotifiedContinue(cat, env, items, f, n);
    } else {
      NotifiedFinish(cat, env, items, f, n);
    }
  }

  /** An exhausted generator announces nothing. */
  lemma NotifiedExhausted(cat: Catalogue, env: Env, items: seq<Item>, f: Table, n: nat)
    requires JsMap.DistinctKeys(f) && Coherent(items, f) && NextSpec(cat, items, f).0.None?
    ensures Run(cat, env, items, f, n).table == f
    ensures Notified(Run(cat, env, items, f, n).actions) == []
  {
    assert Notified([EndOfStreamError(PlaybackFailed)]) == [] by {
      assert [EndOfStreamError(PlaybackFailed)][1..] == [];
    }
  }

  /** An attempt without a license error that ends the run announces the
      first pending candidate and leaves the table alone. */
  lemma NotifiedFinish(cat: Catalogue, env: Env, items: seq<Item>, f: Table, n: nat)
    requires JsMap.DistinctKeys(f) && Coherent(items, f) && NoLicenseErrors(env)
    requires NextSpec(cat, items, f).0.Some?
    requires AttemptSpec(env, n, NextSpec(cat, items, f).0.value, f).exit != Continue
    ensures Run(cat, env, items, f, n).table == f
    ensures Notified(Run(cat, env, items, f, n).actions) <= Pending(cat, items, f)
  {
    var next := NextSpec(cat, items, f);
    var c := next.0.value;
    var a := AttemptSpec(env, n, c, f);
    NextPending(cat, items, f);
    assert !HasLicenseError(env.attempt(n).license);
    AttemptDemotes(env, n, c, f);
    RunFinish(cat, env, items, f, n);
    AttemptNotifies(env, n, c, f, Tail(a.exit));
  }

  /** An attempt without a license error that goes on announces the first
      pending candidate, and the rest of the run goes on from the same table. */
  lemma NotifiedContinue(cat: Catalogue, env: Env, items: seq<Item>, f: Table, n: nat)
    requires JsMap.DistinctKeys(f) && Coherent(items, f) && NoLicenseErrors(env)
    requires NextSpec(cat, items, f).0.Some? && Coherent(NextSpec(cat, items, f).1, f)
    requires AttemptSpec(env, n, NextSpec(cat, items, f).0.value, f).exit == Continue
    requires var t := Run(cat, env, NextSpec(cat, items, f).1, f, n + 1);
      t.table == f && Notified(t.actions) <= Pending(cat, NextSpec(cat, items, f).1, f)
    ensures Run(cat, env, items, f, n).table == f
    ensures Notified(Run(cat, env, items, f, n).actions) <= Pending(cat, items, f)
  {
    var next := NextSpec(cat, items, f);
    var c := next.0.value;
    var a := AttemptSpec(env, n, c, f);
    NextPending(cat, items, f);
    assert !HasLicenseError(env.attempt(n).license);
    AttemptDemotes(env, n, c, f);
    RunContinue(cat, env, items, f, n);
    var t := Run(cat, env, next.1, f, n + 1);
    AttemptNotifies(env, n, c, f, []);
    assert a.actions + [] == a.actions;
    PrefixJoin(a.actions, t.actions, c, Pending(cat, next.1, f));
  }

  /** Without license errors, the handler tries the candidates of
      `files(gid)` in order, from the first. */
  lemma CallbackTriesFiles(cat: Catalogue, env: Env, fuel: nat, f: Table, songid: string, oldId: Option<string>)
    requires JsMap.DistinctKeys(f) && NoLicenseErrors(env) && oldId != Some(songid)
    ensures var r := Callback(cat, env, fuel, f, oldId, Some(songid));
      r.table == f && Notified(r.actions) <= Files(cat, Gid(songid), fuel, f)
  {
    if env.keysReady {
      var items := [Fetch(Gid(songid), fuel)];
      assert Coherent(items, f);
      NotifiedPrefix(cat, env, items, f, 0);
      StartPending(cat, Gid(songid), fuel, f);
    }
  }

  /** No CDN response is `ok`. */
  ghost predicate NoOkResponse(env: Env) {
    forall m: nat, u: string :: env.cdn(m, u).Responds? && !env.cdn(m, u).ok
  }

  /** When no CDN response is `ok`, an attempt announces its candidate and
      moves on with the table unchanged. */
  lemma NoReaderStep(env: Env, n: nat, c: Candidate, f: Table)
    requires JsMap.DistinctKeys(f) && NoOkResponse(env)
    ensures var a := AttemptSpec(env, n, c, f);
      a.exit == Continue && a.table == f && Notified(a.actions) == [c]
  {
    assert Skipped(env, n, c.cdnurls, |c.cdnurls|);
    AttemptFails(env, n, c, f);
    AttemptDemotes(env, n, c, f);
    var a := AttemptSpec(env, n, c, f);
    AttemptNotifies(env, n, c, f, []);
    assert a.actions + [] == a.actions;
  }

  /** When no CDN response is `ok`, every attempt moves on: the run
      announces every pending candidate, in order, keeps the table and
      ends with the exhaustion error. */
  lemma {:induction false} NoReaderTriesAll(cat: Catalogue, env: Env, items: seq<Item>, f: Table, n: nat)
    requires JsMap.DistinctKeys(f) && Coherent(items, f) && NoOkResponse(env)
    ensures var r := Run(cat, env, items, f, n);
      r.table == f && r.outcome == Threw(PlaybackFailed) && Notified(r.actions) == Pending(cat, items, f)
    decreases Work(cat, items, |f|)
  {
    var next := NextSpec(cat, items, f);
    NextCoherent(cat, items, f);
    NextPending(cat, items, f);
    if next.0.None? {
      NotifiedExhausted(cat, env, items, f, n);
      RunExhausted(cat, env, items, f, n);
    } else {
      var c := next.0.value;
      NoReaderStep(env, n, c, f);
      RunContinue(cat, env, items, f, n);
      var a := AttemptSpec(env, n, c, f);
      NoReaderTriesAll(cat, env, next.1, f, n + 1);
      var t := Run(cat, env, next.1, f, n + 1);
      NotifiedAppend(a.actions, t.actions);
    }
  }

  /** When no CDN response is `ok`, the handler announces every candidate
      of `files(gid)`, in order, and then rejects with the exhaustion error. */
  lemma CallbackTriesAllFiles(cat: Catalogue, env: Env, fuel: nat, f: Table, songid: string, oldId: Option<string>)
    requires JsMap.DistinctKeys(f) && NoOkResponse(env) && env.keysReady && oldId != Some(songid)
    ensures var r := Callback(cat, env, fuel, f, oldId, Some(songid));
      r.table == f && r.outcome == Threw(PlaybackFailed) && Notified(r.actions) == Files(cat, Gid(songid), fuel, f)
  {
    var items := [Fetch(Gid(songid), fuel)];
    assert Coherent(items, f);
    NoReaderTriesAll(cat, env, items, f, 0);
    StartPending(cat, Gid(songid), fuel, f);
  }

  /** The track id the handler resolves: 22 characters are a base-62 id. */
  function Gid(songid: string): (r: string)
    ensures |songid| != 22 ==> r == songid
    ensures |songid| == 22 ==> |r| >= 32
    ensures |songid| == 22 && Numerals.Over(songid, B62.Alphabet) ==>
      Numerals.Over(r, B62.HexDigits) && Numerals.Value(r, B62.HexDigits) == Numerals.Value(songid, B62.Alphabet)
  {
    if |songid| == 22 then B62.B62ToHex(songid, 32) else songid
  }

  /** `attributeChangedCallback(_, old_songid, songid)` with the table at `f`;
      `None` is a missing attribute. */
  function Callback(cat: Catalogue, env: Env, fuel: nat, f: Table, oldId: Option<string>, newId: Option<string>): (r: Trace)
    requires JsMap.DistinctKeys(f)
    ensures oldId == newId ==> r == Trace([], Ignored, f)
    ensures oldId != newId && newId.None? ==> r == Trace([], Threw(TypeError), f)
    ensures oldId != newId && newId.Some? && !env.keysReady ==> r == Trace([], Threw(KeysRejected), f)
    ensures JsMap.DistinctKeys(r.table) && forall k :: JsMap.Get(r.table, k) == JsMap.Get(f, k)
  {
    if oldId == newId then Trace([], Ignored, f)
    else if newId.None? then Trace([], Threw(TypeError), f)
    else if !env.keysReady then Trace([], Threw(KeysRejected), f)
    else Run(cat, env, [Fetch(Gid(newId.value), fuel)], f, 0)
  }

  function Join(acts: seq<Action>, t: Trace): Trace {
    Trace(acts + t.actions, t.outcome, t.table)
  }

  lemma JoinThen(pre: seq<Action>, acts: seq<Action>, tail: seq<Action>, o: Outcome, t: Table)
    ensures Join(pre, Trace(acts + tail, o, t)) == Join(pre + acts, Trace(tail, o, t))
  {
    assert pre + (acts + tail) == (pre + acts) + tail;
  }

  /** With the key container ready, a changed, present attribute starts a run on the track's metadata fetch. */
  lemma CallbackStarts(cat: Catalogue, env: Env, fuel: nat, f: Table, oldId: Option<string>, songid: string)
    requires JsMap.DistinctKeys(f) && oldId != Some(songid) && env.keysReady
    ensures Coherent([Fetch(Gid(songid), fuel)], f)
    ensures Callback(cat, env, fuel, f, oldId, Some(songid)) == Run(cat, env, [Fetch(Gid(songid), fuel)], f, 0)
  {
  }

  /** An exhausted generator ends the run with `endOfStream(e)` and throws. */
  lemma RunExhausted(cat: Catalogue, env: Env, items: seq<Item>, f: Table, n: nat)
    requires JsMap.DistinctKeys(f) && Coherent(items, f) && NextSpec(cat, items, f).0.None?
    ensures Run(cat, env, items, f, n) == Trace([EndOfStreamError(PlaybackFailed)], Threw(PlaybackFailed), f)
  {
  }

  /** The handler on a player, with the module-level `formats` table. */
  method AttributeChangedCallback(table: FormatTable, cat: Catalogue, env: Env, fuel: nat,
                                  oldId: Option<string>, newId: Option<string>)
    returns (actions: seq<Action>, outcome: Outcome)
    requires table.Valid()
    modifies table
    ensures table.Valid()
    ensures Trace(actions, outcome, table.entries) == Callback(cat, env, fuel, old(table.entries), oldId, newId)
  {
    if oldId == newId {
      return [], Ignored;
    }
    if newId.None? {
      return [], Threw(TypeError);
    }
    if !env.keysReady {
      return [], Threw(KeysRejected);
    }
    var stream := new CandidateStream(cat, Gid(newId.value), fuel);
    ghost var total := Callback(cat, env, fuel, table.entries, oldId, newId);
    CallbackStarts(cat, env, fuel, table.entries, oldId, newId.value);
    actions := [];
    var n := 0;
    ghost var before := stream.items;
    var closed := false;
    NextCoherent(cat, before, table.entries);
    var c := stream.Next(table.entries);
    while c.Some?
      invariant !closed
      invariant table.Valid() && stream.catalogue == cat && Coherent(before, table.entries)
      invariant (c, stream.items) == NextSpec(cat, before, table.entries)
      invariant total == Join(actions, Run(cat, env, before, table.entries, n))
      decreases Work(cat, before, |table.entries|)
    {
      ghost var f := table.entries;
      NextCoherent(cat, before, f);
      var acts, exit := TryCandidate(table, env, n, c.value);
      if exit != Continue {
        RunFinish(cat, env, before, f, n);
        JoinThen(actions, acts, Tail(exit), Final(exit), table.entries);
        actions := actions + acts;
        if exit == Closed {
          closed := true;
          break;
        }
        return actions + Tail(exit), Final(exit);
      }
      RunContinue(cat, env, before, f, n);
      ghost var rest := Run(cat, env, stream.items, table.entries, n + 1);
      JoinThen(actions, acts, rest.actions, rest.outcome, rest.table);
      actions := actions + acts;
      before := stream.items;
      n := n + 1;
      c := stream.Next(table.entries);
    }
    if closed {
      assert actions + Tail(Closed) == actions;
      outcome := Threw(InvalidState);
    } else {
      RunExhausted(cat, env, before, table.entries, n);
      actions := actions + [EndOfStreamError(PlaybackFailed)];
      outcome := Threw(PlaybackFailed);
    }
  }
}
