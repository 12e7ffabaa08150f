/** Track resolution of src/base-player.mjs, the `files(gid)` generator:
    for a track, its own playable files in the order of the format table
    at the time the track is reached, then, depth first, the files of its
    alternatives.  The network and the platform are a catalogue of oracles. */
module Resolver {
  import opened Wrappers
  import JsMap
  import opened Formats

  /** A JSON value, as far as `typeof v == 'string'` tells. */
  datatype Field = Str(s: string) | Other

  /** One element of the metadata's `file` array. */
  datatype FileEntry = FileEntry(fileId: Field, format: Field)

  /** The parts of the track metadata the resolution reads: `file`, and
      the `gid` of each element of `alternative`. */
  datatype Metadata = Metadata(files: seq<FileEntry>, alternatives: seq<Field>)

  /** The oracles: the metadata request of a gid (`None` when the fetch or
      the JSON parse fails), the storage-resolve request of a file id
      (its `cdnurl` list, `None` when the request fails) and
      `codec_supported`. */
  datatype Catalogue = Catalogue(
    metadata: string -> Option<Metadata>,
    storage: string -> Option<seq<string>>,
    supported: string -> bool)

  /** What the generator yields: the track, the chosen format and codec and the CDN URLs. */
  datatype Candidate = Candidate(gid: string, format: string, codec: string, cdnurls: seq<string>)

  // ---------------------------------------------------------------- file ids

  /** The `[format, file_id]` pairs of the entries whose two fields are strings, in order. */
  function WellFormed(files: seq<FileEntry>): (r: Table)
    ensures forall p :: p in r ==> exists k :: 0 <= k < |files| && files[k] == FileEntry(Str(p.1), Str(p.0))
  {
    if files == [] then []
    else
      var init := WellFormed(files[..|files| - 1]);
      match files[|files| - 1]
      case FileEntry(Str(id), Str(fmt)) => init + [(fmt, id)]
      case _ => init
  }

  /** `file_ids`: format to file id.  For a repeated format the last string
      `file_id` wins, and entries with a non-string field are ignored. */
  function FileIds(m: Metadata): (r: Table)
    ensures JsMap.DistinctKeys(r)
    ensures forall format :: JsMap.Get(r, format) == LastFileId(m.files, format)
  {
    WellFormedLastAll(m.files);
    JsMap.FromEntries(WellFormed(m.files))
  }

  predicate HasFormat(e: FileEntry, format: string) {
    e.fileId.Str? && e.format == Str(format)
  }

  /** The file id of the last well-formed entry with format `format`. */
  function LastFileId(files: seq<FileEntry>, format: string): (r: Option<string>)
    ensures r.Some? ==> exists k :: (0 <= k < |files| && files[k] == FileEntry(Str(r.value), Str(format))
      && forall l :: k < l < |files| ==> !HasFormat(files[l], format))
    ensures r.None? <==> forall k :: 0 <= k < |files| ==> !HasFormat(files[k], format)
  {
    if files == [] then None
    else
      var init := files[..|files| - 1];
      var last := files[|files| - 1];
      if HasFormat(last, format) then Some(last.fileId.s)
      else
        var r := LastFileId(init, format);
        assert forall k :: 0 <= k < |init| ==> init[k] == files[k];
        r
  }

  lemma {:induction false} WellFormedLast(files: seq<FileEntry>, format: string)
    ensures JsMap.LastValue(WellFormed(files), format) == LastFileId(files, format)
  {
    if files != [] {
      WellFormedLast(files[..|files| - 1], format);
    }
  }

  lemma WellFormedLastAll(files: seq<FileEntry>)
    ensures forall format :: JsMap.LastValue(WellFormed(files), format) == LastFileId(files, format)
  {
    forall format ensures JsMap.LastValue(WellFormed(files), format) == LastFileId(files, format) {
      WellFormedLast(files, format);
    }
  }

  // ---------------------------------------------------------------- candidates

  /** One turn of the format loop for entry `e` of the table: skipped when
      the file id is missing or empty or the codec is unsupported, and
      silently when the storage lookup fails. */
  function OwnCandidate(cat: Catalogue, gid: string, ids: Table, e: (string, string)): (r: Option<Candidate>)
    ensures r.Some? <==> (JsMap.Get(ids, e.0).Some? && JsMap.Get(ids, e.0).value != ""
                          && cat.supported(e.1) && cat.storage(JsMap.Get(ids, e.0).value).Some?)
    ensures r.Some? ==> r.value.gid == gid && (r.value.format, r.value.codec) == e
    ensures r.Some? ==> Some(r.value.cdnurls) == cat.storage(JsMap.Get(ids, e.0).value)
  {
    match JsMap.Get(ids, e.0)
    case None => None
    case Some(id) =>
      if id == "" || !cat.supported(e.1) then None
      else
        match cat.storage(id)
        case None => None
        case Some(urls) => Some(Candidate(gid, e.0, e.1, urls))
  }

  function AsSeq<T>(o: Option<T>): seq<T> {
    if o.Some? then [o.value] else []
  }

  /** The candidates of one track, from position `pos` of the snapshot `s` on. */
  function OwnCandidates(cat: Catalogue, gid: string, ids: Table, s: Table, pos: nat): (r: seq<Candidate>)
    ensures |r| <= if pos <= |s| then |s| - pos else 0
    ensures forall c :: c in r ==> c.gid == gid && cat.supported(c.codec) && (c.format, c.codec) in s
    decreases |s| - pos
  {
    if pos >= |s| then []
    else AsSeq(OwnCandidate(cat, gid, ids, s[pos])) + OwnCandidates(cat, gid, ids, s, pos + 1)
  }

  /** A track's candidates follow the table: the candidates of a prefix
      come before those of the rest. */
  lemma {:induction false} OwnCandidatesSplit(cat: Catalogue, gid: string, ids: Table, s: Table, t: Table, pos: nat)
    requires pos <= |s|
    ensures OwnCandidates(cat, gid, ids, s + t, pos) == OwnCandidates(cat, gid, ids, s, pos) + OwnCandidates(cat, gid, ids, t, 0)
    decreases |s| - pos
  {
    if pos < |s| {
      OwnCandidatesSplit(cat, gid, ids, s, t, pos + 1);
      var x := AsSeq(OwnCandidate(cat, gid, ids, s[pos]));
      assert (s + t)[pos] == s[pos];
      assert OwnCandidates(cat, gid, ids, s + t, pos) == x + OwnCandidates(cat, gid, ids, s + t, pos + 1);
      assert OwnCandidates(cat, gid, ids, s, pos) == x + OwnCandidates(cat, gid, ids, s, pos + 1);
      CandidatesAssoc(x, OwnCandidates(cat, gid, ids, s, pos + 1), OwnCandidates(cat, gid, ids, t, 0));
    } else {
      OwnCandidatesShift(cat, gid, ids, s, t, 0);
    }
  }

  lemma {:induction false} OwnCandidatesShift(cat: Catalogue, gid: string, ids: Table, s: Table, t: Table, pos: nat)
    requires pos <= |t|
    ensures OwnCandidates(cat, gid, ids, s + t, |s| + pos) == OwnCandidates(cat, gid, ids, t, pos)
    decreases |t| - pos
  {
    if pos < |t| {
      OwnCandidatesShift(cat, gid, ids, s, t, pos + 1);
      assert (s + t)[|s| + pos] == t[pos];
    }
  }

  /** After demoting entry `i`, the track's candidates are those of the
      other formats in their old order, then the demoted format's. */
  lemma DemotedOrder(cat: Catalogue, gid: string, ids: Table, f: Table, i: nat)
    requires JsMap.DistinctKeys(f) && i < |f|
    ensures OwnCandidates(cat, gid, ids, Demoted(f, f[i].0, f[i].1), 0)
         == OwnCandidates(cat, gid, ids, f[..i] + f[i + 1..], 0) + AsSeq(OwnCandidate(cat, gid, ids, f[i]))
  {
    DemotedMovesToEnd(f, i);
    OwnCandidatesSplit(cat, gid, ids, f[..i] + f[i + 1..], [f[i]], 0);
  }

  /** The gids of the alternatives whose `gid` is a string, in order. */
  function AltGids(alts: seq<Field>): (r: seq<string>)
    ensures |r| <= |alts|
    ensures forall g :: g in r <==> Str(g) in alts
  {
    if alts == [] then []
    else
      var rest := AltGids(alts[1..]);
      assert forall x :: x in alts <==> x == alts[0] || x in alts[1..];
      (if alts[0].Str? then [alts[0].s] else []) + rest
  }

  /** Keeping the string gids distributes over concatenation, so their order is the alternatives' order. */
  lemma {:induction false} AltGidsAppend(a: seq<Field>, b: seq<Field>)
    ensures AltGids(a + b) == AltGids(a) + AltGids(b)
  {
    if a == [] {
      assert a + b == b;
    } else {
      assert (a + b)[0] == a[0];
      assert (a + b)[1..] == a[1..] + b;
      AltGidsAppend(a[1..], b);
    }
  }

  /** What `files(gid)` yields when the table stays `f`: the track's own
      candidates, then those of its alternatives.  `fuel` bounds the depth
      of the recursion into alternatives, which the source does not bound. */
  function Files(cat: Catalogue, gid: string, fuel: nat, f: Table): (r: seq<Candidate>)
    ensures forall c :: c in r ==> cat.supported(c.codec) && (c.format, c.codec) in f
    decreases fuel, 0, 0
  {
    if fuel == 0 then []
    else
      match cat.metadata(gid)
      case None => []
      case Some(m) =>
        OwnCandidates(cat, gid, FileIds(m), f, 0) + AltFiles(cat, AltGids(m.alternatives), fuel - 1, f)
  }

  /** `yield* files(gid)` for each alternative in turn. */
  function AltFiles(cat: Catalogue, gids: seq<string>, fuel: nat, f: Table): (r: seq<Candidate>)
    ensures forall c :: c in r ==> cat.supported(c.codec) && (c.format, c.codec) in f
    decreases fuel, 1, |gids|
  {
    if gids == [] then [] else Files(cat, gids[0], fuel, f) + AltFiles(cat, gids[1..], fuel, f)
  }

  // ---------------------------------------------------------------- the generator

  /** A suspended part of the generator: a track whose metadata is still to
      be fetched, or a track's format loop over the snapshot `snapshot`
      taken when the loop started, at position `pos`. */
  datatype Item = Fetch(gid: string, fuel: nat) | Walk(gid: string, ids: Table, snapshot: Table, pos: nat)

  function AltItems(gids: seq<string>, fuel: nat): seq<Item> {
    if gids == [] then [] else [Fetch(gids[0], fuel)] + AltItems(gids[1..], fuel)
  }

  /** Starting a track: fetch its metadata, snapshot the table `f`, and
      queue its alternatives behind its format loop. */
  function Expand(cat: Catalogue, gid: string, fuel: nat, f: Table): seq<Item> {
    if fuel == 0 then []
    else
      match cat.metadata(gid)
      case None => []
      case Some(m) => [Walk(gid, FileIds(m), f, 0)] + AltItems(AltGids(m.alternatives), fuel - 1)
  }

  /** An upper bound on the generator steps of a track, for a table of `n` entries. */
  function Size(cat: Catalogue, gid: string, fuel: nat, n: nat): nat
    decreases fuel, 0, 0
  {
    if fuel == 0 then 1
    else
      match cat.metadata(gid)
      case None => 1
      case Some(m) => 2 + n + AltSize(cat, AltGids(m.alternatives), fuel - 1, n)
  }

  function AltSize(cat: Catalogue, gids: seq<string>, fuel: nat, n: nat): nat
    decreases fuel, 1, |gids|
  {
    if gids == [] then 0 else Size(cat, gids[0], fuel, n) + AltSize(cat, gids[1..], fuel, n)
  }

  function ItemWork(cat: Catalogue, it: Item, n: nat): nat {
    match it
    case Fetch(gid, fuel) => Size(cat, gid, fuel, n)
    case Walk(_, _, s, pos) => if pos <= |s| then |s| - pos + 1 else 1
  }

  function Work(cat: Catalogue, items: seq<Item>, n: nat): nat {
    if items == [] then 0 else ItemWork(cat, items[0], n) + Work(cat, items[1..], n)
  }

  lemma {:induction false} WorkAppend(cat: Catalogue, a: seq<Item>, b: seq<Item>, n: nat)
    ensures Work(cat, a + b, n) == Work(cat, a, n) + Work(cat, b, n)
  {
    if a == [] {
      assert a + b == b;
    } else {
      assert (a + b)[0] == a[0];
      assert (a + b)[1..] == a[1..] + b;
      WorkAppend(cat, a[1..], b, n);
    }
  }

  lemma {:induction false} WorkAltItems(cat: Catalogue, gids: seq<string>, fuel: nat, n: nat)
    ensures Work(cat, AltItems(gids, fuel), n) == AltSize(cat, gids, fuel, n)
  {
    if gids != [] {
      WorkAltItems(cat, gids[1..], fuel, n);
      assert ([Fetch(gids[0], fuel)] + AltItems(gids[1..], fuel))[1..] == AltItems(gids[1..], fuel);
    }
  }

  /** Starting a track takes one step off its bound. */
  lemma WorkExpand(cat: Catalogue, gid: string, fuel: nat, f: Table, rest: seq<Item>)
    ensures Work(cat, Expand(cat, gid, fuel, f) + rest, |f|) < Work(cat, [Fetch(gid, fuel)] + rest, |f|)
  {
    var e := Expand(cat, gid, fuel, f);
    WorkAppend(cat, e, rest, |f|);
    WorkAppend(cat, [Fetch(gid, fuel)], rest, |f|);
    if fuel > 0 && cat.metadata(gid).Some? {
      var m := cat.metadata(gid).value;
      var alts := AltItems(AltGids(m.alternatives), fuel - 1);
      WorkAppend(cat, [Walk(gid, FileIds(m), f, 0)], alts, |f|);
      WorkAltItems(cat, AltGids(m.alternatives), fuel - 1, |f|);
    }
  }

  lemma WorkCons(cat: Catalogue, x: Item, rest: seq<Item>, n: nat)
    ensures Work(cat, [x] + rest, n) == ItemWork(cat, x, n) + Work(cat, rest, n)
  {
    assert ([x] + rest)[1..] == rest;
  }

  /** The generator resumed on worklist `items` with the table at `f`:
      the next candidate it yields and the worklist after it, or nothing
      and an empty worklist once it is exhausted. */
  function NextSpec(cat: Catalogue, items: seq<Item>, f: Table): (r: (Option<Candidate>, seq<Item>))
    ensures r.0.None? ==> r.1 == []
    ensures r.0.Some? ==> Work(cat, r.1, |f|) < Work(cat, items, |f|)
    decreases Work(cat, items, |f|)
  {
    if items == [] then (None, [])
    else
      match items[0]
      case Fetch(gid, fuel) =>
        WorkExpand(cat, gid, fuel, f, items[1..]);
        assert [items[0]] + items[1..] == items;
        NextSpec(cat, Expand(cat, gid, fuel, f) + items[1..], f)
      case Walk(gid, ids, s, pos) =>
        WorkCons(cat, items[0], items[1..], |f|);
        assert [items[0]] + items[1..] == items;
        if pos >= |s| then NextSpec(cat, items[1..], f)
        else
          var rest := [Walk(gid, ids, s, pos + 1)] + items[1..];
          WorkCons(cat, Walk(gid, ids, s, pos + 1), items[1..], |f|);
          match OwnCandidate(cat, gid, ids, s[pos])
          case Some(c) => (Some(c), rest)
          case None => NextSpec(cat, rest, f)
  }

  // ---------------------------------------------------------------- pending candidates

  function ItemPending(cat: Catalogue, it: Item, f: Table): seq<Candidate> {
    match it
    case Fetch(gid, fuel) => Files(cat, gid, fuel, f)
    case Walk(gid, ids, s, pos) => OwnCandidates(cat, gid, ids, s, pos)
  }

  /** Everything the worklist still yields if the table stays `f`. */
  function Pending(cat: Catalogue, items: seq<Item>, f: Table): seq<Candidate> {
    if items == [] then [] else ItemPending(cat, items[0], f) + Pending(cat, items[1..], f)
  }

  lemma {:induction false} PendingAppend(cat: Catalogue, a: seq<Item>, b: seq<Item>, f: Table)
    ensures Pending(cat, a + b, f) == Pending(cat, a, f) + Pending(cat, b, f)
  {
    if a == [] {
      assert a + b == b;
    } else {
      var x := ItemPending(cat, a[0], f);
      assert (a + b)[0] == a[0];
      assert (a + b)[1..] == a[1..] + b;
      PendingAppend(cat, a[1..], b, f);
      assert Pending(cat, a + b, f) == x + (Pending(cat, a[1..], f) + Pending(cat, b, f));
      assert Pending(cat, a, f) == x + Pending(cat, a[1..], f);
      CandidatesAssoc(x, Pending(cat, a[1..], f), Pending(cat, b, f));
    }
  }

  lemma CandidatesAssoc(x: seq<Candidate>, y: seq<Candidate>, z: seq<Candidate>)
    ensures x + (y + z) == (x + y) + z
  {
  }

  lemma {:induction false} PendingAltItems(cat: Catalogue, gids: seq<string>, fuel: nat, f: Table)
    ensures Pending(cat, AltItems(gids, fuel), f) == AltFiles(cat, gids, fuel, f)
  {
    if gids != [] {
      PendingAltItems(cat, gids[1..], fuel, f);
      assert ([Fetch(gids[0], fuel)] + AltItems(gids[1..], fuel))[1..] == AltItems(gids[1..], fuel);
    }
  }

  lemma PendingExpand(cat: Catalogue, gid: string, fuel: nat, f: Table)
    ensures Pending(cat, Expand(cat, gid, fuel, f), f) == Files(cat, gid, fuel, f)
  {
    if fuel == 0 || cat.metadata(gid).None? {
      ExpandNothing(cat, gid, fuel, f);
      assert Pending(cat, [], f) == [];
    } else {
      PendingExpandTrack(cat, gid, fuel, f);
    }
  }

  lemma PendingExpandTrack(cat: Catalogue, gid: string, fuel: nat, f: Table)
    requires fuel > 0 && cat.metadata(gid).Some?
    ensures Pending(cat, Expand(cat, gid, fuel, f), f) == Files(cat, gid, fuel, f)
  {
    var m := cat.metadata(gid).value;
    var w := Walk(gid, FileIds(m), f, 0);
    var gids := AltGids(m.alternatives);
    ExpandTrack(cat, gid, fuel, f);
    calc {
      Pending(cat, Expand(cat, gid, fuel, f), f);
    ==
      Pending(cat, [w] + AltItems(gids, fuel - 1), f);
    == { PendingTrack(cat, w, gids, fuel - 1, f); }
      ItemPending(cat, w, f) + AltFiles(cat, gids, fuel - 1, f);
    ==
      OwnCandidates(cat, gid, FileIds(m), f, 0) + AltFiles(cat, gids, fuel - 1, f);
    ==
      Files(cat, gid, fuel, f);
    }
  }

  lemma ExpandNothing(cat: Catalogue, gid: string, fuel: nat, f: Table)
    requires fuel == 0 || cat.metadata(gid).None?
    ensures Expand(cat, gid, fuel, f) == [] && Files(cat, gid, fuel, f) == []
  {
  }

  lemma ExpandTrack(cat: Catalogue, gid: string, fuel: nat, f: Table)
    requires fuel > 0 && cat.metadata(gid).Some?
    ensures var m := cat.metadata(gid).value;
      && Expand(cat, gid, fuel, f) == [Walk(gid, FileIds(m), f, 0)] + AltItems(AltGids(m.alternatives), fuel - 1)
      && Files(cat, gid, fuel, f) == OwnCandidates(cat, gid, FileIds(m), f, 0) + AltFiles(cat, AltGids(m.alternatives), fuel - 1, f)
  {
  }

  lemma PendingTrack(cat: Catalogue, w: Item, gids: seq<string>, fuel: nat, f: Table)
    ensures Pending(cat, [w] + AltItems(gids, fuel), f) == ItemPending(cat, w, f) + AltFiles(cat, gids, fuel, f)
  {
    PendingCons(cat, w, AltItems(gids, fuel), f);
    PendingAltItems(cat, gids, fuel, f);
  }

  lemma PendingCons(cat: Catalogue, x: Item, rest: seq<Item>, f: Table)
    ensures Pending(cat, [x] + rest, f) == ItemPending(cat, x, f) + Pending(cat, rest, f)
  {
    assert ([x] + rest)[1..] == rest;
  }

  /** One step of the generator on a track still to be fetched. */
  lemma NextOfFetch(cat: Catalogue, gid: string, fuel: nat, rest: seq<Item>, f: Table)
    ensures NextSpec(cat, [Fetch(gid, fuel)] + rest, f) == NextSpec(cat, Expand(cat, gid, fuel, f) + rest, f)
  {
    var items := [Fetch(gid, fuel)] + rest;
    assert items[0] == Fetch(gid, fuel) && items[1..] == rest;
  }

  /** One step of the generator inside a track's format loop. */
  lemma NextOfWalk(cat: Catalogue, gid: string, ids: Table, s: Table, pos: nat, rest: seq<Item>, f: Table)
    ensures NextSpec(cat, [Walk(gid, ids, s, pos)] + rest, f) ==
      if pos >= |s| then NextSpec(cat, rest, f)
      else if OwnCandidate(cat, gid, ids, s[pos]).Some? then
        (OwnCandidate(cat, gid, ids, s[pos]), [Walk(gid, ids, s, pos + 1)] + rest)
      else NextSpec(cat, [Walk(gid, ids, s, pos + 1)] + rest, f)
  {
    var items := [Walk(gid, ids, s, pos)] + rest;
    assert items[0] == Walk(gid, ids, s, pos) && items[1..] == rest;
  }

  /** Resuming the generator on `items` with the table at `f` yields the
      first pending candidate and leaves the rest pending, or yields
      nothing when nothing is pending. */
  predicate YieldsPending(cat: Catalogue, items: seq<Item>, f: Table) {
    var r := NextSpec(cat, items, f);
    && (r.0.None? <==> Pending(cat, items, f) == [])
    && (r.0.Some? ==> Pending(cat, items, f) == [r.0.value] + Pending(cat, r.1, f))
  }

  /** While the table stays put, the generator yields exactly the pending
      candidates, one at a time and in order. */
  lemma {:induction false} NextPending(cat: Catalogue, items: seq<Item>, f: Table)
    ensures YieldsPending(cat, items, f)
    decreases Work(cat, items, |f|), 1
  {
    if items != [] {
      var x, rest := items[0], items[1..];
      assert [x] + rest == items;
      match x
      case Fetch(gid, fuel) => NextPendingFetch(cat, gid, fuel, rest, f);
      case Walk(gid, ids, s, pos) => NextPendingWalk(cat, gid, ids, s, pos, rest, f);
    }
  }

  lemma {:induction false} NextPendingFetch(cat: Catalogue, gid: string, fuel: nat, rest: seq<Item>, f: Table)
    ensures YieldsPending(cat, [Fetch(gid, fuel)] + rest, f)
    decreases Work(cat, [Fetch(gid, fuel)] + rest, |f|), 0
  {
    var e := Expand(cat, gid, fuel, f);
    NextOfFetch(cat, gid, fuel, rest, f);
    WorkExpand(cat, gid, fuel, f, rest);
    PendingCons(cat, Fetch(gid, fuel), rest, f);
    PendingAppend(cat, e, rest, f);
    PendingExpand(cat, gid, fuel, f);
    NextPending(cat, e + rest, f);
  }

  lemma {:induction false} NextPendingWalk(cat: Catalogue, gid: string, ids: Table, s: Table, pos: nat,
                                           rest: seq<Item>, f: Table)
    ensures YieldsPending(cat, [Walk(gid, ids, s, pos)] + rest, f)
    decreases Work(cat, [Walk(gid, ids, s, pos)] + rest, |f|), 0
  {
    var x := Walk(gid, ids, s, pos);
    NextOfWalk(cat, gid, ids, s, pos, rest, f);
    WorkCons(cat, x, rest, |f|);
    if pos >= |s| {
      WalkPendingEnd(cat, gid, ids, s, pos, rest, f);
      NextPending(cat, rest, f);
    } else {
      var y := Walk(gid, ids, s, pos + 1);
      WorkCons(cat, y, rest, |f|);
      WalkPendingStep(cat, gid, ids, s, pos, rest, f);
      if OwnCandidate(cat, gid, ids, s[pos]).None? {
        NextPending(cat, [y] + rest, f);
      }
    }
  }

  /** A walk past the end of its snapshot has nothing pending. */
  lemma WalkPendingEnd(cat: Catalogue, gid: string, ids: Table, s: Table, pos: nat, rest: seq<Item>, f: Table)
    requires pos >= |s|
    ensures Pending(cat, [Walk(gid, ids, s, pos)] + rest, f) == Pending(cat, rest, f)
  {
    PendingCons(cat, Walk(gid, ids, s, pos), rest, f);
  }

  /** A walk inside its snapshot has the candidate at `pos`, if any, and
      then what the walk from `pos + 1` has. */
  lemma WalkPendingStep(cat: Catalogue, gid: string, ids: Table, s: Table, pos: nat, rest: seq<Item>, f: Table)
    requires pos < |s|
    ensures Pending(cat, [Walk(gid, ids, s, pos)] + rest, f)
         == AsSeq(OwnCandidate(cat, gid, ids, s[pos])) + Pending(cat, [Walk(gid, ids, s, pos + 1)] + rest, f)
  {
    PendingCons(cat, Walk(gid, ids, s, pos), rest, f);
    PendingCons(cat, Walk(gid, ids, s, pos + 1), rest, f);
    OwnCandidatesStep(cat, gid, ids, s, pos);
    SeqAssoc(AsSeq(OwnCandidate(cat, gid, ids, s[pos])), OwnCandidates(cat, gid, ids, s, pos + 1), Pending(cat, rest, f));
  }

  lemma OwnCandidatesStep(cat: Catalogue, gid: string, ids: Table, s: Table, pos: nat)
    requires pos < |s|
    ensures OwnCandidates(cat, gid, ids, s, pos) == AsSeq(OwnCandidate(cat, gid, ids, s[pos])) + OwnCandidates(cat, gid, ids, s, pos + 1)
  {
  }

  lemma SeqAssoc<T>(a: seq<T>, b: seq<T>, c: seq<T>)
    ensures (a + b) + c == a + (b + c)
  {
  }

  /** A freshly started generator has exactly `Files` pending. */
  lemma StartPending(cat: Catalogue, gid: string, fuel: nat, f: Table)
    ensures Pending(cat, [Fetch(gid, fuel)], f) == Files(cat, gid, fuel, f)
  {
    PendingCons(cat, Fetch(gid, fuel), [], f);
    assert [Fetch(gid, fuel)] + [] == [Fetch(gid, fuel)];
  }

  /** A snapshot is kept: once a track's format loop has a candidate
      left, the next candidate does not depend on the table. */
  lemma {:induction false} SnapshotKept(cat: Catalogue, gid: string, ids: Table, s: Table, pos: nat,
                                        rest: seq<Item>, f: Table, g: Table)
    requires OwnCandidates(cat, gid, ids, s, pos) != []
    ensures NextSpec(cat, [Walk(gid, ids, s, pos)] + rest, f) == NextSpec(cat, [Walk(gid, ids, s, pos)] + rest, g)
    decreases |s| - pos
  {
    var items := [Walk(gid, ids, s, pos)] + rest;
    assert items[0] == Walk(gid, ids, s, pos) && items[1..] == rest;
    if OwnCandidate(cat, gid, ids, s[pos]).None? {
      SnapshotKept(cat, gid, ids, s, pos + 1, rest, f, g);
    }
  }

  // ---------------------------------------------------------------- coherence

  /** Every entry of every snapshot is still an entry of `f`: demotion
      changes the order of the table, never a codec or the key set. */
  predicate Coherent(items: seq<Item>, f: Table) {
    forall i, e :: 0 <= i < |items| && items[i].Walk? && e in items[i].snapshot ==> JsMap.Get(f, e.0) == Some(e.1)
  }

  lemma EntriesGet(f: Table)
    requires JsMap.DistinctKeys(f)
    ensures forall e :: e in f ==> JsMap.Get(f, e.0) == Some(e.1)
  {
    forall e | e in f ensures JsMap.Get(f, e.0) == Some(e.1) {
      var i :| 0 <= i < |f| && f[i] == e;
      JsMap.FindIs(f, e.0, i);
    }
  }

  lemma CoherentAppend(a: seq<Item>, b: seq<Item>, f: Table)
    requires Coherent(a, f) && Coherent(b, f)
    ensures Coherent(a + b, f)
  {
    forall i, e | 0 <= i < |a + b| && (a + b)[i].Walk? && e in (a + b)[i].snapshot
      ensures JsMap.Get(f, e.0) == Some(e.1)
    {
      if i >= |a| { assert (a + b)[i] == b[i - |a|]; }
    }
  }

  lemma AltItemsCoherent(gids: seq<string>, fuel: nat, f: Table)
    ensures Coherent(AltItems(gids, fuel), f)
    ensures forall i :: 0 <= i < |AltItems(gids, fuel)| ==> AltItems(gids, fuel)[i].Fetch?
  {
    if gids != [] {
      AltItemsCoherent(gids[1..], fuel, f);
    }
  }

  /** Resuming the generator on a coherent worklist leaves it coherent and
      yields an entry of the table. */
  predicate StaysCoherent(cat: Catalogue, items: seq<Item>, f: Table) {
    var r := NextSpec(cat, items, f);
    && Coherent(r.1, f)
    && (r.0.Some? ==> JsMap.Get(f, r.0.value.format) == Some(r.0.value.codec))
  }

  /** Dropping the first item keeps a worklist coherent. */
  lemma CoherentTail(x: Item, rest: seq<Item>, f: Table)
    requires Coherent([x] + rest, f)
    ensures Coherent(rest, f)
    ensures x.Walk? ==> forall e :: e in x.snapshot ==> JsMap.Get(f, e.0) == Some(e.1)
  {
    var items := [x] + rest;
    assert items[0] == x;
    forall i, e | 0 <= i < |rest| && rest[i].Walk? && e in rest[i].snapshot
      ensures JsMap.Get(f, e.0) == Some(e.1)
    {
      assert rest[i] == items[i + 1];
    }
  }

  /** The generator keeps the worklist coherent with the table, and every
      candidate it yields is an entry of the table. */
  lemma {:induction false} NextCoherent(cat: Catalogue, items: seq<Item>, f: Table)
    requires JsMap.DistinctKeys(f) && Coherent(items, f)
    ensures StaysCoherent(cat, items, f)
    decreases Work(cat, items, |f|), 1
  {
    if items != [] {
      var x, rest := items[0], items[1..];
      assert [x] + rest == items;
      match x
      case Fetch(gid, fuel) => NextCoherentFetch(cat, gid, fuel, rest, f);
      case Walk(gid, ids, s, pos) => NextCoherentWalk(cat, gid, ids, s, pos, rest, f);
    }
  }

  /** A fetched track's walk and alternatives are coherent. */
  lemma ExpandCoherent(cat: Catalogue, gid: string, fuel: nat, f: Table)
    requires JsMap.DistinctKeys(f)
    ensures Coherent(Expand(cat, gid, fuel, f), f)
  {
    if fuel == 0 || cat.metadata(gid).None? {
      ExpandNothing(cat, gid, fuel, f);
    } else {
      var m := cat.metadata(gid).value;
      var e := [Walk(gid, FileIds(m), f, 0)] + AltItems(AltGids(m.alternatives), fuel - 1);
      assert Expand(cat, gid, fuel, f) == e;
      WalkThenFetchesCoherent(gid, FileIds(m), f, AltGids(m.alternatives), fuel - 1);
    }
  }

  lemma WalkThenFetchesCoherent(gid: string, ids: Table, f: Table, gids: seq<string>, fuel: nat)
    requires JsMap.DistinctKeys(f)
    ensures Coherent([Walk(gid, ids, f, 0)] + AltItems(gids, fuel), f)
  {
    WalkOfTableCoherent(gid, ids, f);
    AltItemsCoherent(gids, fuel, f);
    CoherentAppend([Walk(gid, ids, f, 0)], AltItems(gids, fuel), f);
  }

  /** A walk whose snapshot is the table itself is coherent with it. */
  lemma WalkOfTableCoherent(gid: string, ids: Table, f: Table)
    requires JsMap.DistinctKeys(f)
    ensures Coherent([Walk(gid, ids, f, 0)], f)
  {
    EntriesGet(f);
    var w := [Walk(gid, ids, f, 0)];
    forall i, e | 0 <= i < |w| && w[i].Walk? && e in w[i].snapshot
      ensures JsMap.Get(f, e.0) == Some(e.1)
    {
      assert w[i].snapshot == f;
    }
  }

  lemma {:induction false} NextCoherentFetch(cat: Catalogue, gid: string, fuel: nat, rest: seq<Item>, f: Table)
    requires JsMap.DistinctKeys(f) && Coherent([Fetch(gid, fuel)] + rest, f)
    ensures StaysCoherent(cat, [Fetch(gid, fuel)] + rest, f)
    decreases Work(cat, [Fetch(gid, fuel)] + rest, |f|), 0
  {
    var e := Expand(cat, gid, fuel, f);
    CoherentTail(Fetch(gid, fuel), rest, f);
    NextOfFetch(cat, gid, fuel, rest, f);
    WorkExpand(cat, gid, fuel, f, rest);
    ExpandCoherent(cat, gid, fuel, f);
    CoherentAppend(e, rest, f);
    NextCoherent(cat, e + rest, f);
  }

  lemma {:induction false} NextCoherentWalk(cat: Catalogue, gid: string, ids: Table, s: Table, pos: nat,
                                            rest: seq<Item>, f: Table)
    requires JsMap.DistinctKeys(f) && Coherent([Walk(gid, ids, s, pos)] + rest, f)
    ensures StaysCoherent(cat, [Walk(gid, ids, s, pos)] + rest, f)
    decreases Work(cat, [Walk(gid, ids, s, pos)] + rest, |f|), 0
  {
    var x := Walk(gid, ids, s, pos);
    CoherentTail(x, rest, f);
    NextOfWalk(cat, gid, ids, s, pos, rest, f);
    WorkCons(cat, x, rest, |f|);
    if pos >= |s| {
      NextCoherent(cat, rest, f);
    } else {
      var y := Walk(gid, ids, s, pos + 1);
      assert Coherent([y], f);
      CoherentAppend([y], rest, f);
      WorkCons(cat, y, rest, |f|);
      assert s[pos] in s;
      if OwnCandidate(cat, gid, ids, s[pos]).None? {
        NextCoherent(cat, [y] + rest, f);
      }
    }
  }

  /** Coherence only depends on what the table maps each format to. */
  lemma CoherentSameGets(items: seq<Item>, f: Table, g: Table)
    requires Coherent(items, f) && forall k :: JsMap.Get(g, k) == JsMap.Get(f, k)
    ensures Coherent(items, g)
  {
  }

  // ---------------------------------------------------------------- the object

  /** The running generator object of `files(gid, signal)`. */
  class CandidateStream {
    const catalogue: Catalogue
    var items: seq<Item>

    constructor(cat: Catalogue, gid: string, fuel: nat)
      ensures catalogue == cat && items == [Fetch(gid, fuel)]
    {
      catalogue := cat;
      items := [Fetch(gid, fuel)];
    }

    /** `next()`: run the generator, with the table as it now is, up to its
        next `yield`, or to its end. */
    method Next(f: Table) returns (c: Option<Candidate>)
      modifies this
      ensures (c, items) == NextSpec(catalogue, old(items), f)
    {
      var work := items;
      while work != []
        invariant NextSpec(catalogue, work, f) == NextSpec(catalogue, old(items), f)
        decreases Work(catalogue, work, |f|)
      {
        var rest := work[1..];
        assert [work[0]] + rest == work;
        match work[0]
        case Fetch(gid, fuel) =>
          WorkExpand(catalogue, gid, fuel, f, rest);
          work := Expand(catalogue, gid, fuel, f) + rest;
        case Walk(gid, ids, s, pos) =>
          WorkCons(catalogue, work[0], rest, |f|);
          if pos >= |s| {
            work := rest;
          } else {
            var next := [Walk(gid, ids, s, pos + 1)] + rest;
            WorkCons(catalogue, Walk(gid, ids, s, pos + 1), rest, |f|);
            var found := OwnCandidate(catalogue, gid, ids, s[pos]);
            if found.Some? {
              items := next;
              return found;
            }
            work := next;
          }
      }
      items := [];
      return None;
    }
  }
}
