/** The format preference table of src/base-player.mjs: server format tag
    to codec, best quality first.  A license failure demotes a format by
    deleting it and setting it again, which moves it to the back. */
module Formats {
  import opened Wrappers
  import JsMap

  type Table = seq<(string, string)>

  /** The entries of the `new Map([...])` at module load. */
  const InitialFormats: Table := [
    ("OGG_VORBIS_320", "audio/ogg; codecs=\"vorbis\""),
    ("MP4_256", "audio/mp4; codecs=\"mp4a.40.2\""),
    ("OGG_VORBIS_160", "audio/ogg; codecs=\"vorbis\""),
    ("MP4_128", "audio/mp4; codecs=\"mp4a.40.2\""),
    ("OGG_VORBIS_96", "audio/ogg; codecs=\"vorbis\""),
    ("AAC_24", "audio/mp4; codecs=\"flac\"")
  ]

  /** The six format tags are distinct, so the map holds the entries as listed. */
  lemma InitialFormatsMap()
    ensures JsMap.DistinctKeys(InitialFormats)
    ensures JsMap.FromEntries(InitialFormats) == InitialFormats
  {
    InitialFormatsDistinct();
    FromDistinct(InitialFormats);
  }

  lemma InitialFormatsDistinct()
    ensures JsMap.DistinctKeys(InitialFormats)
  {
    var f := InitialFormats;
    assert |f[0].0| == 14 && |f[1].0| == 7 && |f[2].0| == 14 && |f[3].0| == 7 && |f[4].0| == 13 && |f[5].0| == 6;
    assert f[0].0[12] == '2' && f[2].0[12] == '6';
    assert f[1].0[4] == '2' && f[3].0[4] == '1';
  }

  /** Building a map from entries with distinct keys keeps them as they are. */
  lemma {:induction false} FromDistinct(es: Table)
    requires JsMap.DistinctKeys(es)
    ensures JsMap.FromEntries(es) == es
  {
    if es != [] {
      var init := es[..|es| - 1];
      var last := es[|es| - 1];
      FromDistinct(init);
      assert last.0 !in JsMap.Keys(init) by {
        forall j | 0 <= j < |init| ensures JsMap.Keys(init)[j] != last.0 {
          assert init[j] == es[j];
        }
      }
      assert JsMap.Find(init, last.0) == None;
      assert init + [last] == es;
    }
  }

  /** `formats.delete(format); formats.set(format, codec)`. */
  function Demoted(f: Table, format: string, codec: string): (r: Table)
    ensures JsMap.Get(r, format) == Some(codec)
    ensures JsMap.DistinctKeys(f) ==>
      && JsMap.DistinctKeys(r) && |r| > 0 && r[|r| - 1] == (format, codec)
      && forall k :: k != format ==> JsMap.Get(r, k) == JsMap.Get(f, k)
  {
    var d := JsMap.Delete(f, format);
    if JsMap.DistinctKeys(f) then
      assert JsMap.Find(d, format) == None;
      JsMap.Set(d, format, codec)
    else
      JsMap.Set(d, format, codec)
  }

  /** Demoting the entry at position `i` moves it, with its codec, behind
      all the others, which keep their relative order. */
  lemma DemotedMovesToEnd(f: Table, i: nat)
    requires JsMap.DistinctKeys(f) && i < |f|
    ensures Demoted(f, f[i].0, f[i].1) == f[..i] + f[i + 1..] + [f[i]]
  {
    JsMap.DeleteThenSet(f, i, f[i].1);
  }

  /** Demoting a present format keeps the key set, the size and every
      format's codec, and leaves the keys distinct. */
  lemma DemotedKeys(f: Table, format: string, codec: string)
    requires JsMap.DistinctKeys(f) && JsMap.Get(f, format) == Some(codec)
    ensures var r := Demoted(f, format, codec);
      && JsMap.DistinctKeys(r)
      && |r| == |f|
      && (forall k :: k in JsMap.Keys(r) <==> k in JsMap.Keys(f))
      && (forall k :: JsMap.Get(r, k) == JsMap.Get(f, k))
      && JsMap.Keys(r)[|r| - 1] == format
  {
    var i := JsMap.Find(f, format).value;
    DemotedMovesToEnd(f, i);
    var r := Demoted(f, format, codec);
    assert f[i] == (format, codec);
    assert r[|r| - 1] == f[i];
    forall k ensures k in JsMap.Keys(r) <==> k in JsMap.Keys(f) {
      if k != format {
        assert JsMap.Get(r, k) == JsMap.Get(f, k);
      }
    }
  }

  /** Demoting the same format twice is the same as once. */
  lemma DemotedIdempotent(f: Table, format: string, codec: string)
    requires JsMap.DistinctKeys(f)
    ensures Demoted(Demoted(f, format, codec), format, codec) == Demoted(f, format, codec)
  {
    var d := JsMap.Delete(f, format);
    assert format !in JsMap.Keys(d);
    assert JsMap.Find(d, format) == None;
    var r := d + [(format, codec)];
    assert Demoted(f, format, codec) == r;
    var last := |r| - 1;
    JsMap.DeleteThenSet(r, last, codec);
    assert r[..last] + r[last + 1..] + [(format, codec)] == r;
  }

  /** The module-level `formats` map, shared by every player on the page. */
  class FormatTable {
    var entries: Table

    /** A JS Map never holds a key twice. */
    predicate Valid()
      reads this
    {
      JsMap.DistinctKeys(entries)
    }

    constructor()
      ensures Valid() && entries == InitialFormats
    {
      entries := InitialFormats;
      InitialFormatsDistinct();
    }

    /** The license-error handler: push the format to the back. */
    method Demote(format: string, codec: string)
      requires Valid()
      modifies this
      ensures Valid() && entries == Demoted(old(entries), format, codec)
    {
      entries := JsMap.Delete(entries, format);
      entries := JsMap.Set(entries, format, codec);
    }
  }
}
