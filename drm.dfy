/** The key-system request of src/drm.mjs: the 45 capability options,
    their preference order, the key-system table and the choice of the
    first key system the platform grants. */
module Drm {
  import opened Wrappers
  import opened Numerals
  import JsMap

  const ContentTypes: seq<string> := [
    "audio/webm; codecs=\"opus\"",
    "audio/mp4; codecs=\"flac\"",
    "audio/mp4; codecs=\"mp4a.40.2\"",
    "audio/ogg; codecs=\"vorbis\""
  ]

  const Robustnesses: seq<string> := ["SW_SECURE_DECODE", "SW_SECURE_CRYPTO", ""]

  /** One robustness level for every non-empty subset of the content types. */
  const CombinationCount: int := |Robustnesses| * (Pow(2, |ContentTypes|) - 1)

  datatype Capability = Capability(contentType: string, robustness: string)

  /** A `MediaKeySystemConfiguration` dictionary. */
  datatype Config = Config(
    configLabel: string,
    initDataTypes: seq<string>,
    audioCapabilities: seq<Capability>,
    videoCapabilities: seq<Capability>,
    distinctiveIdentifier: string,
    persistentState: string,
    sessionTypes: seq<string>)

  // ---------------------------------------------------------------- the options

  /** Whether `2 ** j & m` is non-zero. */
  predicate Bit(m: nat, j: nat) {
    PowPositive(2, j);
    (m / Pow(2, j)) % 2 == 1
  }

  /** The indices from `j` on of the content types whose bit is clear in `m`. */
  function ClearIndices(m: nat, j: nat): (r: seq<nat>)
    requires j <= |ContentTypes|
    ensures forall k :: 0 <= k < |r| ==> j <= r[k] < |ContentTypes| && !Bit(m, r[k])
    ensures forall k, l :: 0 <= k < l < |r| ==> r[k] < r[l]
    decreases |ContentTypes| - j
  {
    if j == |ContentTypes| then []
    else if Bit(m, j) then ClearIndices(m, j + 1)
    else [j] + ClearIndices(m, j + 1)
  }

  /** Every index from `j` on whose bit is clear is listed. */
  lemma {:induction false} ClearIndicesCover(m: nat, j: nat, c: nat)
    requires j <= c < |ContentTypes| && !Bit(m, c)
    ensures c in ClearIndices(m, j)
    decreases |ContentTypes| - j
  {
    if j < c {
      ClearIndicesCover(m, j + 1, c);
    }
  }

  /** `contentTypes.filter((_, j) => !(2 ** j & m)).map(contentType => ({contentType, robustness}))`,
      from index `j` on: one capability per clear bit, in content-type order. */
  function Capabilities(m: nat, robustness: string, j: nat): (r: seq<Capability>)
    requires j <= |ContentTypes|
    ensures |r| == |ClearIndices(m, j)|
    ensures forall k :: 0 <= k < |r| ==>
      r[k] == Capability(ContentTypes[ClearIndices(m, j)[k]], robustness)
    decreases |ContentTypes| - j
  {
    if j == |ContentTypes| then []
    else
      var rest := Capabilities(m, robustness, j + 1);
      if Bit(m, j) then
        assert ClearIndices(m, j) == ClearIndices(m, j + 1);
        rest
      else
        assert ClearIndices(m, j) == [j] + ClearIndices(m, j + 1);
        [Capability(ContentTypes[j], robustness)] + rest
  }

  const DecimalDigits: string := "0123456789"

  /** `String(n)` for a non-negative integer. */
  function Decimal(n: nat): string {
    if n < 10 then [DecimalDigits[n]] else Decimal(n / 10) + [DecimalDigits[n % 10]]
  }

  /** Above 0, `String(n)` is the digit string of `n`. */
  lemma {:induction false} DecimalIsDigits(n: nat)
    requires n > 0
    ensures Decimal(n) == Digits(n, DecimalDigits)
  {
    if n >= 10 {
      DecimalIsDigits(n / 10);
    }
  }

  /** The option the `Array.from` mapping builds for index `i`: robustness
      `i % 3`, and the content types with a clear bit in `i / 3`. */
  function MakeOption(i: nat): (r: Config)
    ensures forall k :: 0 <= k < |r.audioCapabilities| ==>
      r.audioCapabilities[k].contentType in ContentTypes && r.audioCapabilities[k].robustness == Robustnesses[i % 3]
  {
    var robustness := Robustnesses[i % |Robustnesses|];
    var excluded := i / |Robustnesses|;
    Config("drmsuxx" + Decimal(i), ["cenc"], Capabilities(excluded, robustness, 0), [],
           "optional", "optional", ["temporary"])
  }

  /** The first `n` generated options, in index order. */
  function Generated(n: nat): (r: seq<Config>)
    ensures |r| == n && forall i :: 0 <= i < n ==> r[i] == MakeOption(i)
  {
    if n == 0 then [] else Generated(n - 1) + [MakeOption(n - 1)]
  }

  lemma CombinationCountIs()
    ensures CombinationCount == 45
  {
    assert Pow(2, 4) == 16;
  }

  /** The options as generated, before sorting. */
  function GeneratedOptions(): (r: seq<Config>)
    ensures |r| == 45 && forall i :: 0 <= i < 45 ==> r[i] == MakeOption(i)
  {
    CombinationCountIs();
    Generated(CombinationCount)
  }

  /** For `m` below 16 the four bits recompose `m`. */
  lemma MaskDecomposition(m: nat)
    requires m < 16
    ensures m == (if Bit(m, 0) then 1 else 0) + (if Bit(m, 1) then 2 else 0)
               + (if Bit(m, 2) then 4 else 0) + (if Bit(m, 3) then 8 else 0)
  {
    assert Pow(2, 0) == 1 && Pow(2, 1) == 2 && Pow(2, 2) == 4 && Pow(2, 3) == 8;
  }

  /** The bits of a mask put together bit by bit. */
  lemma MaskBits(b0: bool, b1: bool, b2: bool, b3: bool)
    ensures var m := (if b0 then 1 else 0) + (if b1 then 2 else 0) + (if b2 then 4 else 0) + (if b3 then 8 else 0);
      Bit(m, 0) == b0 && Bit(m, 1) == b1 && Bit(m, 2) == b2 && Bit(m, 3) == b3
  {
    assert Pow(2, 0) == 1 && Pow(2, 1) == 2 && Pow(2, 2) == 4 && Pow(2, 3) == 8;
  }

  /** Below 15 some bit among the first four is clear. */
  lemma SomeBitClear(m: nat)
    requires m < 15
    ensures exists j :: 0 <= j < |ContentTypes| && !Bit(m, j)
  {
    MaskDecomposition(m);
    if Bit(m, 0) && Bit(m, 1) && Bit(m, 2) {
      assert !Bit(m, 3);
    }
  }

  /** Option `i` asks for robustness `robustnesses[i % 3]` on every
      capability, for exactly the content types whose bit is clear in
      `i / 3`, in content-type order, and for at least one of them. */
  lemma OptionShape(i: nat)
    requires i < CombinationCount
    ensures var caps := MakeOption(i).audioCapabilities;
      && |caps| > 0
      && |caps| == |ClearIndices(i / 3, 0)|
      && (forall k :: 0 <= k < |caps| ==> caps[k].robustness == Robustnesses[i % 3])
      && (forall k :: 0 <= k < |caps| ==> caps[k].contentType == ContentTypes[ClearIndices(i / 3, 0)[k]])
  {
    CombinationCountIs();
    SomeBitClear(i / 3);
    var j :| 0 <= j < |ContentTypes| && !Bit(i / 3, j);
    ClearIndicesCover(i / 3, 0, j);
  }

  /** The first capability of option `i` has robustness `robustnesses[i % 3]`. */
  lemma FirstRobustness(i: nat)
    requires i < CombinationCount
    ensures |MakeOption(i).audioCapabilities| > 0
    ensures MakeOption(i).audioCapabilities[0].robustness == Robustnesses[i % 3]
  {
    OptionShape(i);
  }

  /** The content types an option asks for. */
  function ContentSet(c: Config): set<string> {
    set k | 0 <= k < |c.audioCapabilities| :: c.audioCapabilities[k].contentType
  }

  lemma ContentTypesDistinct()
    ensures forall a, b :: 0 <= a < b < |ContentTypes| ==> ContentTypes[a] != ContentTypes[b]
  {
    assert |ContentTypes[0]| == 25 && |ContentTypes[1]| == 24;
    assert |ContentTypes[2]| == 29 && |ContentTypes[3]| == 26;
  }

  lemma RobustnessesDistinct()
    ensures forall a, b :: 0 <= a < b < |Robustnesses| ==> Robustnesses[a] != Robustnesses[b]
  {
    assert Robustnesses[0][10] == 'D' && Robustnesses[1][10] == 'C' && Robustnesses[2] == [];
  }

  /** Content type `j` is asked for by option `i` exactly when bit `j` of `i / 3` is clear. */
  lemma InContentSet(i: nat, j: nat)
    requires i < CombinationCount && j < |ContentTypes|
    ensures ContentTypes[j] in ContentSet(MakeOption(i)) <==> !Bit(i / 3, j)
  {
    OptionShape(i);
    var caps := MakeOption(i).audioCapabilities;
    var idx := ClearIndices(i / 3, 0);
    if !Bit(i / 3, j) {
      ClearIndicesCover(i / 3, 0, j);
      var k :| 0 <= k < |idx| && idx[k] == j;
      assert caps[k].contentType == ContentTypes[j];
    }
    if ContentTypes[j] in ContentSet(MakeOption(i)) {
      var k :| 0 <= k < |caps| && caps[k].contentType == ContentTypes[j];
      assert ContentTypes[idx[k]] == ContentTypes[j];
      ContentTypesDistinct();
      assert idx[k] == j;
    }
  }

  /** `c` asks for exactly the content types `s`, and its first capability
      for robustness `rob`. */
  predicate AsksFor(c: Config, s: set<string>, rob: string) {
    |c.audioCapabilities| > 0 && ContentSet(c) == s && c.audioCapabilities[0].robustness == rob
  }

  /** The content types whose bit is clear in `m`. */
  function Chosen(m: nat): set<string> {
    set j | 0 <= j < |ContentTypes| && !Bit(m, j) :: ContentTypes[j]
  }

  lemma InChosen(m: nat, j: nat)
    requires j < |ContentTypes|
    ensures ContentTypes[j] in Chosen(m) <==> !Bit(m, j)
  {
    if ContentTypes[j] in Chosen(m) {
      var j' :| 0 <= j' < |ContentTypes| && !Bit(m, j') && ContentTypes[j'] == ContentTypes[j];
      ContentTypesDistinct();
      assert j' == j;
    }
  }

  lemma ChosenWithin(m: nat)
    ensures forall y :: y in Chosen(m) ==> y in ContentTypes
  {
  }

  /** Option `i` asks for the content types chosen by `i / 3`. */
  lemma ContentSetChosen(i: nat)
    requires i < CombinationCount
    ensures ContentSet(MakeOption(i)) == Chosen(i / 3)
  {
    ContentSetWithin(i);
    ChosenWithin(i / 3);
    forall j | 0 <= j < |ContentTypes|
      ensures ContentTypes[j] in ContentSet(MakeOption(i)) <==> ContentTypes[j] in Chosen(i / 3)
    {
      InContentSet(i, j);
      InChosen(i / 3, j);
    }
    SameWithin(ContentSet(MakeOption(i)), Chosen(i / 3), ContentTypes);
  }

  /** Different masks below 16 choose different content types. */
  lemma ChosenInjective(m: nat, m': nat)
    requires m < 16 && m' < 16 && m != m'
    ensures Chosen(m) != Chosen(m')
  {
    MaskDecomposition(m);
    MaskDecomposition(m');
    var j :| 0 <= j < |ContentTypes| && Bit(m, j) != Bit(m', j);
    InChosen(m, j);
    InChosen(m', j);
  }

  /** No two options ask for the same content types at the same robustness. */
  lemma OptionsDistinct(i: nat, i': nat)
    requires i < CombinationCount && i' < CombinationCount && i != i'
    ensures |MakeOption(i).audioCapabilities| > 0 && |MakeOption(i').audioCapabilities| > 0
    ensures ContentSet(MakeOption(i)) != ContentSet(MakeOption(i'))
         || MakeOption(i).audioCapabilities[0].robustness != MakeOption(i').audioCapabilities[0].robustness
  {
    CombinationCountIs();
    FirstRobustness(i);
    FirstRobustness(i');
    if i % 3 == i' % 3 {
      ContentSetChosen(i);
      ContentSetChosen(i');
      ChosenInjective(i / 3, i' / 3);
    } else {
      RobustnessesDistinct();
    }
  }

  /** The mask whose set bits are the content types missing from `s`. */
  function ExclusionMask(s: set<string>): (m: nat)
    ensures m < 16
    ensures forall j :: 0 <= j < |ContentTypes| ==> (Bit(m, j) <==> ContentTypes[j] !in s)
  {
    var b0, b1, b2, b3 := ContentTypes[0] !in s, ContentTypes[1] !in s, ContentTypes[2] !in s, ContentTypes[3] !in s;
    MaskBits(b0, b1, b2, b3);
    (if b0 then 1 else 0) + (if b1 then 2 else 0) + (if b2 then 4 else 0) + (if b3 then 8 else 0)
  }

  /** Options only ask for the listed content types. */
  lemma ContentSetWithin(i: nat)
    requires i < CombinationCount
    ensures forall y :: y in ContentSet(MakeOption(i)) ==> y in ContentTypes
  {
    OptionShape(i);
  }

  /** A non-empty choice of content types leaves some bit clear. */
  lemma ExclusionMaskBelow(s: set<string>)
    requires s != {} && (forall x :: x in s ==> x in ContentTypes)
    ensures ExclusionMask(s) < 15
  {
    var m := ExclusionMask(s);
    var x :| x in s;
    var j0 :| 0 <= j0 < 4 && ContentTypes[j0] == x;
    assert !Bit(m, j0);
    MaskDecomposition(m);
  }

  /** The exclusion mask of a set of content types chooses that set. */
  lemma ChosenExclusion(s: set<string>)
    requires forall x :: x in s ==> x in ContentTypes
    ensures Chosen(ExclusionMask(s)) == s
  {
    var m := ExclusionMask(s);
    ChosenWithin(m);
    forall j | 0 <= j < |ContentTypes| ensures ContentTypes[j] in Chosen(m) <==> ContentTypes[j] in s {
      InChosen(m, j);
    }
    SameWithin(Chosen(m), s, ContentTypes);
  }

  lemma IndexSplit(m: nat, r: nat)
    requires r < 3
    ensures (3 * m + r) / 3 == m && (3 * m + r) % 3 == r
  {
  }

  /** Option `3 * m + r`, for the exclusion mask `m` of `s`, asks for `s` at robustness `r`. */
  lemma OptionForChoice(s: set<string>, r: nat)
    requires s != {} && (forall x :: x in s ==> x in ContentTypes) && r < |Robustnesses|
    ensures var i := 3 * ExclusionMask(s) + r;
      i < CombinationCount && AsksFor(MakeOption(i), s, Robustnesses[r])
  {
    ExclusionMaskBelow(s);
    ChosenExclusion(s);
    OptionAt(ExclusionMask(s), r);
  }

  /** Option `3 * m + r` asks for the content types `m` leaves clear at robustness `r`. */
  lemma OptionAt(m: nat, r: nat)
    requires m < 15 && r < 3
    ensures var i := 3 * m + r;
      i < CombinationCount && AsksFor(MakeOption(i), Chosen(m), Robustnesses[r])
  {
    CombinationCountIs();
    var i := 3 * m + r;
    IndexSplit(m, r);
    FirstRobustness(i);
    ContentSetChosen(i);
  }

  /** Every non-empty set of content types at every robustness is asked for by some option. */
  lemma OptionsCover(s: set<string>, r: nat)
    requires s != {} && (forall x :: x in s ==> x in ContentTypes) && r < |Robustnesses|
    ensures exists i :: 0 <= i < CombinationCount && AsksFor(MakeOption(i), s, Robustnesses[r])
  {
    OptionForChoice(s, r);
    var i := 3 * ExclusionMask(s) + r;
    assert 0 <= i < CombinationCount;
  }

  /** Two sets drawn from `u` that agree on every element of `u` are equal. */
  lemma SameWithin(a: set<string>, b: set<string>, u: seq<string>)
    requires (forall y :: y in a ==> y in u) && (forall y :: y in b ==> y in u)
    requires forall j :: 0 <= j < |u| ==> (u[j] in a <==> u[j] in b)
    ensures a == b
  {
    forall y | y in a ensures y in b {
      var j :| 0 <= j < |u| && u[j] == y;
    }
    forall y | y in b ensures y in a {
      var j :| 0 <= j < |u| && u[j] == y;
    }
  }

  lemma DecimalFacts()
    ensures IsAlphabet(DecimalDigits) && DecimalDigits[0] == '0'
  {
  }

  /** The labels `'drmsuxx' + i` are pairwise distinct. */
  lemma LabelsDistinct(i: nat, i': nat)
    requires i != i'
    ensures MakeOption(i).configLabel != MakeOption(i').configLabel
  {
    DecimalFacts();
    var p := "drmsuxx";
    if MakeOption(i).configLabel == MakeOption(i').configLabel {
      assert (p + Decimal(i))[|p|..] == Decimal(i);
      assert (p + Decimal(i'))[|p|..] == Decimal(i');
      assert Decimal(i) == Decimal(i');
      if i == 0 || i' == 0 {
        DecimalIsDigits(if i == 0 then i' else i);
        assert false;
      } else {
        DecimalIsDigits(i);
        DecimalIsDigits(i');
        DigitsInjective(i, i', DecimalDigits);
      }
    }
  }

  // ---------------------------------------------------------------- the order

  /** `robustnesses.indexOf(r)`. */
  function RobustnessRank(r: string): (k: int)
    ensures -1 <= k < |Robustnesses|
    ensures k >= 0 ==> Robustnesses[k] == r
    ensures k == -1 <==> r !in Robustnesses
  {
    if r == Robustnesses[0] then 0
    else if r == Robustnesses[1] then 1
    else if r == Robustnesses[2] then 2
    else -1
  }

  /** The comparator of the sort: more capabilities first, then the
      stronger robustness of the first capability.  The second key reads
      `audioCapabilities[0]`, which must exist once the counts tie. */
  function Compare(a: Config, b: Config): int
    requires |a.audioCapabilities| == |b.audioCapabilities| ==> |a.audioCapabilities| > 0
  {
    var byCount := |b.audioCapabilities| - |a.audioCapabilities|;
    if byCount != 0 then byCount
    else RobustnessRank(a.audioCapabilities[0].robustness) - RobustnessRank(b.audioCapabilities[0].robustness)
  }

  predicate HasCapability(c: Config) {
    |c.audioCapabilities| > 0
  }

  /** `a` may precede `b`: it has more capabilities, or as many and a
      robustness no later in `robustnesses`. */
  predicate InOrder(a: Config, b: Config)
    requires HasCapability(a) && HasCapability(b)
  {
    || |a.audioCapabilities| > |b.audioCapabilities|
    || (|a.audioCapabilities| == |b.audioCapabilities|
        && RobustnessRank(a.audioCapabilities[0].robustness) <= RobustnessRank(b.audioCapabilities[0].robustness))
  }

  /** The comparator puts `a` after `b` exactly when `b` is strictly before `a`. */
  lemma CompareMeaning(a: Config, b: Config)
    requires HasCapability(a) && HasCapability(b)
    ensures Compare(a, b) <= 0 <==> InOrder(a, b)
    ensures Compare(a, b) > 0 <==> InOrder(b, a) && !InOrder(a, b)
  {
  }

  predicate AllHaveCapability(s: seq<Config>) {
    forall k :: 0 <= k < |s| ==> HasCapability(s[k])
  }

  /** Capability count never increases along `s`, and within a count the
      robustness rank never decreases. */
  predicate Sorted(s: seq<Config>)
    requires AllHaveCapability(s)
  {
    forall i, j :: 0 <= i < j < |s| ==> InOrder(s[i], s[j])
  }

  method Swap(a: array<Config>, i: nat, j: nat)
    requires i < a.Length && j < a.Length
    modifies a
    ensures a[..] == old(a[..])[i := old(a[j])][j := old(a[i])]
    ensures multiset(a[..]) == multiset(old(a[..]))
  {
    a[i], a[j] := a[j], a[i];
  }

  /** `options.sort(comparator)` in place, as an insertion sort. */
  method SortOptions(a: array<Config>)
    requires AllHaveCapability(a[..])
    modifies a
    ensures AllHaveCapability(a[..]) && Sorted(a[..])
    ensures multiset(a[..]) == multiset(old(a[..]))
  {
    var i := 0;
    while i < a.Length
      invariant 0 <= i <= a.Length
      invariant AllHaveCapability(a[..])
      invariant forall p, q :: 0 <= p < q < i ==> InOrder(a[p], a[q])
      invariant multiset(a[..]) == multiset(old(a[..]))
    {
      var j := i;
      while j > 0 && Compare(a[j - 1], a[j]) > 0
        invariant 0 <= j <= i
        invariant AllHaveCapability(a[..])
        invariant forall p, q :: 0 <= p < q <= i && q != j ==> InOrder(a[p], a[q])
        invariant multiset(a[..]) == multiset(old(a[..]))
      {
        CompareMeaning(a[j - 1], a[j]);
        Swap(a, j - 1, j);
        j := j - 1;
      }
      if j > 0 {
        CompareMeaning(a[j - 1], a[j]);
      }
      i := i + 1;
    }
  }

  /** Every generated option has a first capability, as the comparator needs. */
  lemma GeneratedHaveCapability()
    ensures AllHaveCapability(GeneratedOptions())
  {
    CombinationCountIs();
    forall k | 0 <= k < 45 ensures HasCapability(GeneratedOptions()[k]) {
      FirstRobustness(k);
    }
  }

  /** The module's `options`: generated, then sorted. */
  method BuildOptions() returns (options: array<Config>)
    ensures fresh(options)
    ensures AllHaveCapability(options[..]) && Sorted(options[..])
    ensures multiset(options[..]) == multiset(GeneratedOptions())
  {
    options := NewArray(GeneratedOptions());
    GeneratedHaveCapability();
    SortOptions(options);
  }

  /** `Array.from`: a fresh array holding `s`. */
  method NewArray(s: seq<Config>) returns (a: array<Config>)
    ensures fresh(a) && a[..] == s
  {
    a := new Config[|s|](k requires 0 <= k < |s| => s[k]);
  }

  // ---------------------------------------------------------------- key systems

  const KeySystemEntries: seq<(string, string)> := [
    ("fairplay", "com.apple.fps.1_0"),
    ("widevine", "com.widevine.alpha"),
    ("playready", "com.microsoft.playready.hardware"),
    ("playready", "com.microsoft.playready")
  ]

  /** `new Map(entries)`: nice name to key-system name. */
  function KeySystems(): (r: seq<(string, string)>)
    ensures JsMap.DistinctKeys(r)
    ensures forall k :: JsMap.Get(r, k) == JsMap.LastValue(KeySystemEntries, k)
  {
    JsMap.FromEntries(KeySystemEntries)
  }

  /** The repeated 'playready' keeps its place and takes the later value. */
  lemma KeySystemsContents()
    ensures KeySystems() == [
      ("fairplay", "com.apple.fps.1_0"),
      ("widevine", "com.widevine.alpha"),
      ("playready", "com.microsoft.playready")
    ]
  {
    var e := KeySystemEntries;
    var m2 := [e[0], e[1]];
    assert JsMap.FromEntries(e[..1]) == [e[0]];
    assert e[..2][..1] == e[..1];
    assert JsMap.FromEntries(e[..2]) == m2;
    assert e[..3][..2] == e[..2];
    assert JsMap.Find(m2, "playready") == None;
    var m3 := m2 + [e[2]];
    assert JsMap.FromEntries(e[..3]) == m3;
    assert e[..3] == e[..|e| - 1];
    JsMap.FindIs(m3, "playready", 2);
  }

  /** The object `requestMediaKeySystemAccess` resolves to, tagged with `nice_name`. */
  datatype Access = Access(keySystem: string, niceName: string)

  /** The first entry whose request the platform grants, if any. */
  function FirstGranted(entries: seq<(string, string)>, options: seq<Config>,
                        request: (string, seq<Config>) -> bool): (r: Option<Access>)
    ensures r.None? <==> forall k :: 0 <= k < |entries| ==> !request(entries[k].1, options)
    ensures r.Some? ==> exists k :: (0 <= k < |entries| && request(entries[k].1, options)
      && r.value == Access(entries[k].1, entries[k].0)
      && forall l :: 0 <= l < k ==> !request(entries[l].1, options))
  {
    if entries == [] then None
    else if request(entries[0].1, options) then Some(Access(entries[0].1, entries[0].0))
    else
      var r := FirstGranted(entries[1..], options, request);
      if r.Some? then
        var k :| 0 <= k < |entries| - 1 && request(entries[1..][k].1, options)
          && r.value == Access(entries[1..][k].1, entries[1..][k].0)
          && forall l :: 0 <= l < k ==> !request(entries[1..][l].1, options);
        assert entries[k + 1] == entries[1..][k];
        r
      else r
  }

  /** The first granted entry determines the choice. */
  lemma FirstGrantedAt(entries: seq<(string, string)>, options: seq<Config>,
                       request: (string, seq<Config>) -> bool, k: nat)
    requires k < |entries| && request(entries[k].1, options)
    requires forall l :: 0 <= l < k ==> !request(entries[l].1, options)
    ensures FirstGranted(entries, options, request) == Some(Access(entries[k].1, entries[k].0))
  {
    var r := FirstGranted(entries, options, request);
    var k' :| 0 <= k' < |entries| && request(entries[k'].1, options)
      && r.value == Access(entries[k'].1, entries[k'].0)
      && forall l :: 0 <= l < k' ==> !request(entries[l].1, options);
    assert k' == k;
  }

  /** The selection loop: try each key system in map order, keep the
      first access granted and stop. */
  method SelectKeySystem(entries: seq<(string, string)>, options: seq<Config>,
                         request: (string, seq<Config>) -> bool) returns (system: Option<Access>)
    ensures system == FirstGranted(entries, options, request)
  {
    system := None;
    for n := 0 to |entries|
      invariant forall l :: 0 <= l < n ==> !request(entries[l].1, options)
    {
      if request(entries[n].1, options) {
        FirstGrantedAt(entries, options, request, n);
        return Some(Access(entries[n].1, entries[n].0));
      }
    }
  }
}
