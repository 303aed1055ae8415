/**
 * The EXIF half of app/services.py (HTX/app/services.py is the same file):
 * the recursive sanitiser `exif_data_to_serializable` and the extraction
 * driver `get_exif_data`, which renames raw tag ids through Pillow's TAGS
 * table and returns None for "no EXIF" and for any failure.
 */
module Services {
  import opened Wrappers
  import opened Base64
  import opened Exif

  // ---------------------------------------------------------------------------
  // exif_data_to_serializable

  /**
   * The sanitiser as written: dicts and lists are rebuilt with sanitised
   * entries, an IFDRational becomes a float, `bytes` become Base64 text, and
   * everything else (tuples included) is returned as it is.
   */
  function Sanitize(v: Value): (r: Value)
    ensures v.Dict? ==> r.Dict? && r.entries.Keys == v.entries.Keys
    ensures v.Dict? ==> forall k | k in v.entries :: r.entries[k] == Sanitize(v.entries[k])
    ensures v.List? ==> r.List? && |r.items| == |v.items|
    ensures v.List? ==> forall i | 0 <= i < |v.items| :: r.items[i] == Sanitize(v.items[i])
    ensures v.Rational? ==> r == Float(v.num, v.den)
    ensures v.Bytes? ==> r.Str? && Decode(r.s) == Some(v.data) && |r.s| == 4 * ((|v.data| + 2) / 3)
    ensures !(v.Dict? || v.List? || v.Rational? || v.Bytes?) ==> r == v
  {
    match v
    case Dict(m) => Dict(map k | k in m :: Sanitize(m[k]))
    case List(xs) => List(seq(|xs|, i requires 0 <= i < |xs| => Sanitize(xs[i])))
    case Rational(n, d) => Float(n, d)
    case Bytes(b) => DecodeEncode(b); Str(Encode(b))
    case _ => v
  }

  /** Sanitising an already sanitised value changes nothing. */
  lemma {:induction false} SanitizeIdempotent(v: Value)
    ensures Sanitize(Sanitize(v)) == Sanitize(v)
  {
    match v
    case Dict(m) =>
      forall k | k in m ensures Sanitize(Sanitize(m[k])) == Sanitize(m[k]) {
        SanitizeIdempotent(m[k]);
      }
      assert Sanitize(Sanitize(v)).entries == Sanitize(v).entries;
    case List(xs) =>
      forall i | 0 <= i < |xs| ensures Sanitize(Sanitize(xs[i])) == Sanitize(xs[i]) {
        SanitizeIdempotent(xs[i]);
      }
      assert Sanitize(Sanitize(v)).items == Sanitize(v).items;
    case _ =>
  }

  /**
   * When every container is a dict or a list, no `bytes` and no rational
   * survives at any depth, so `json.dumps` accepts the result.
   */
  lemma {:induction false} SanitizeLeavesNoRaw(v: Value)
    requires DictListOnly(v)
    ensures Serializable(Sanitize(v))
  {
    match v
    case Dict(m) =>
      forall k | k in m ensures Serializable(Sanitize(m[k])) {
        SanitizeLeavesNoRaw(m[k]);
      }
    case List(xs) =>
      forall i | 0 <= i < |xs| ensures Serializable(Sanitize(xs[i])) {
        SanitizeLeavesNoRaw(xs[i]);
      }
    case _ =>
  }

  /**
   * Sanitising commutes with navigation: a dict-key / list-index path reaches
   * something in the result exactly when it reaches something in the input,
   * and what it reaches is the sanitised input value. So keys, list order and
   * list lengths are kept at every depth.
   */
  lemma {:induction false} SanitizeLookup(v: Value, path: seq<Step>)
    ensures Lookup(Sanitize(v), path) ==
            match Lookup(v, path) case None => None case Some(x) => Some(Sanitize(x))
    decreases |path|
  {
    if |path| > 0 {
      match (v, path[0])
      case (Dict(m), Member(k)) =>
        if k in m { SanitizeLookup(m[k], path[1..]); }
      case (List(xs), Element(i)) =>
        if 0 <= i < |xs| { SanitizeLookup(xs[i], path[1..]); }
      case _ =>
    }
  }

  /** A `bytes` value anywhere below dicts and lists comes out as Base64 text that decodes back to it. */
  lemma BytesAtPathDecodeBack(v: Value, path: seq<Step>, data: seq<byte>)
    requires Lookup(v, path) == Some(Bytes(data))
    ensures Lookup(Sanitize(v), path).Some?
    ensures var x := Lookup(Sanitize(v), path).value; x.Str? && Decode(x.s) == Some(data)
  {
    SanitizeLookup(v, path);
  }

  /**
   * Tuples are passed through untouched, so rationals inside one survive:
   * the GPS latitude (tag 2 of the GPS block) that Pillow reports as a
   * tuple of three rationals is not serialisable after sanitising.
   */
  lemma SanitizeKeepsRationalsInTuples()
    ensures var v := Dict(map[Name("GPSInfo") := Dict(map[Id(2) := Tuple([Rational(35, 1), Rational(40, 1), Rational(1234, 100)])])]);
            Sanitize(v) == v && !Serializable(Sanitize(v))
  {
    var latitude := Tuple([Rational(35, 1), Rational(40, 1), Rational(1234, 100)]);
    var gps := Dict(map[Id(2) := latitude]);
    var v := Dict(map[Name("GPSInfo") := gps]);
    assert Sanitize(gps).entries == gps.entries;
    assert Sanitize(gps) == gps;
    assert Sanitize(v).entries == v.entries;
    assert !Serializable(latitude.elems[0]);
    assert !Serializable(latitude);
    assert Id(2) in gps.entries && gps.entries[Id(2)] == latitude;
    assert !Serializable(gps);
    assert Name("GPSInfo") in v.entries && v.entries[Name("GPSInfo")] == gps;
  }

  /**
   * The sanitiser with tuples treated like lists, which is what the
   * docstring's "so that the EXIF data becomes JSON-serializable" asks for.
   */
  function SanitizeAll(v: Value): (r: Value)
    ensures Serializable(r)
  {
    match v
    case Dict(m) => Dict(map k | k in m :: SanitizeAll(m[k]))
    case List(xs) => List(seq(|xs|, i requires 0 <= i < |xs| => SanitizeAll(xs[i])))
    case Tuple(xs) => Tuple(seq(|xs|, i requires 0 <= i < |xs| => SanitizeAll(xs[i])))
    case Rational(n, d) => Float(n, d)
    case Bytes(b) => Str(Encode(b))
    case _ => v
  }

  /** On trees without tuples the corrected sanitiser agrees with the one as written. */
  lemma {:induction false} SanitizeAllAgrees(v: Value)
    requires DictListOnly(v)
    ensures SanitizeAll(v) == Sanitize(v)
  {
    match v
    case Dict(m) =>
      forall k | k in m ensures SanitizeAll(m[k]) == Sanitize(m[k]) {
        SanitizeAllAgrees(m[k]);
      }
      assert SanitizeAll(v).entries == Sanitize(v).entries;
    case List(xs) =>
      forall i | 0 <= i < |xs| ensures SanitizeAll(xs[i]) == Sanitize(xs[i]) {
        SanitizeAllAgrees(xs[i]);
      }
      assert SanitizeAll(v).items == Sanitize(v).items;
    case _ =>
  }

  // ---------------------------------------------------------------------------
  // get_exif_data

  /**
   * What Pillow yields for the uploaded bytes: `Unreadable` when
   * `Image.open` or `_getexif()` raises, otherwise the raw tag-id/value pairs
   * in dict order, or None when `_getexif()` returns None.
   */
  datatype ExifSource = Unreadable | Read(exif: Option<seq<(int, Value)>>)

  /** `ExifTags.TAGS.get(tag_id, tag_id)`. */
  function TagKey(tags: map<int, string>, id: int): Key
  {
    if id in tags then Name(tags[id]) else Id(id)
  }

  /** The dict the renaming loop has built after the given entries, in order. */
  function Renamed(tags: map<int, string>, entries: seq<(int, Value)>): map<Key, Value>
    decreases |entries|
  {
    if |entries| == 0 then map[]
    else
      var last := entries[|entries| - 1];
      Renamed(tags, entries[..|entries| - 1])[TagKey(tags, last.0) := last.1]
  }

  /** The keys are exactly the renamed tag ids. */
  lemma {:induction false} RenamedKeys(tags: map<int, string>, entries: seq<(int, Value)>)
    ensures Renamed(tags, entries).Keys == set i | 0 <= i < |entries| :: TagKey(tags, entries[i].0)
    decreases |entries|
  {
    if |entries| > 0 {
      var n := |entries| - 1;
      RenamedKeys(tags, entries[..n]);
      var front := set i | 0 <= i < n :: TagKey(tags, entries[..n][i].0);
      var all := set i | 0 <= i < |entries| :: TagKey(tags, entries[i].0);
      assert front == set i | 0 <= i < n :: TagKey(tags, entries[i].0);
      assert all == front + {TagKey(tags, entries[n].0)} by {
        forall k | k in all ensures k in front + {TagKey(tags, entries[n].0)} {
          var i :| 0 <= i < |entries| && k == TagKey(tags, entries[i].0);
          if i < n { assert entries[..n][i] == entries[i]; }
        }
      }
    }
  }

  /** Renaming never adds keys: the dict has at most as many keys as there were raw tags. */
  lemma {:induction false} RenamedSize(tags: map<int, string>, entries: seq<(int, Value)>)
    ensures |Renamed(tags, entries)| <= |entries|
    ensures |entries| > 0 ==> |Renamed(tags, entries)| > 0
    decreases |entries|
  {
    if |entries| > 0 {
      var n := |entries| - 1;
      RenamedSize(tags, entries[..n]);
      var m := Renamed(tags, entries[..n]);
      var k := TagKey(tags, entries[n].0);
      assert Renamed(tags, entries) == m[k := entries[n].1];
      if k in m {
        assert m[k := entries[n].1].Keys == m.Keys;
      } else {
        assert m[k := entries[n].1].Keys == m.Keys + {k};
      }
    }
  }

  /**
   * Later entries overwrite earlier ones: a name carries the value of the
   * last raw tag renamed to it.
   */
  lemma {:induction false} RenamedLastWins(tags: map<int, string>, entries: seq<(int, Value)>, j: int)
    requires 0 <= j < |entries|
    requires forall j' | j < j' < |entries| :: TagKey(tags, entries[j'].0) != TagKey(tags, entries[j].0)
    ensures TagKey(tags, entries[j].0) in Renamed(tags, entries)
    ensures Renamed(tags, entries)[TagKey(tags, entries[j].0)] == entries[j].1
    decreases |entries|
  {
    var n := |entries| - 1;
    if j < n {
      RenamedLastWins(tags, entries[..n], j);
    }
  }

  /** The specification of `get_exif_data`. */
  function ExifData(tags: map<int, string>, src: ExifSource): Option<Value>
  {
    match src
    case Unreadable => None
    case Read(None) => None
    case Read(Some(entries)) =>
      if |entries| == 0 then None else Some(Sanitize(Dict(Renamed(tags, entries))))
  }

  /**
   * None exactly for an unreadable image, for no EXIF and for empty EXIF;
   * otherwise a non-empty dict keyed by tag names or unmapped ids, never
   * larger than the raw EXIF, so "absent" is never written as `{}`.
   */
  lemma ExifDataShape(tags: map<int, string>, src: ExifSource)
    ensures ExifData(tags, src).None? <==> src.Unreadable? || src.exif.None? || |src.exif.value| == 0
    ensures ExifData(tags, src).Some? ==>
              var r := ExifData(tags, src).value;
              var entries := src.exif.value;
              && r.Dict?
              && 0 < |r.entries| <= |entries|
              && r.entries.Keys == set i | 0 <= i < |entries| :: TagKey(tags, entries[i].0)
  {
    if src.Read? && src.exif.Some? && |src.exif.value| > 0 {
      RenamedKeys(tags, src.exif.value);
      RenamedSize(tags, src.exif.value);
    }
  }

  /**
   * `get_exif_data`: the renaming loop fills a dict in place, which is then
   * sanitised.
   */
  method GetExifData(tags: map<int, string>, src: ExifSource) returns (r: Option<Value>)
    ensures r == ExifData(tags, src)
    ensures r.None? <==> src.Unreadable? || src.exif.None? || |src.exif.value| == 0
    ensures r.Some? ==> r.value.Dict? && 0 < |r.value.entries| <= |src.exif.value|
  {
    ExifDataShape(tags, src);
    if src.Unreadable? || src.exif.None? || |src.exif.value| == 0 {
      return None;
    }
    var exif := src.exif.value;
    var info: map<Key, Value> := map[];
    var i := 0;
    while i < |exif|
      invariant 0 <= i <= |exif|
      invariant info == Renamed(tags, exif[..i])
    {
      var (tagId, rawVal) := exif[i];
      var tagName := if tagId in tags then Name(tags[tagId]) else Id(tagId);
      info := info[tagName := rawVal];
      assert exif[..i + 1][..i] == exif[..i];
      i := i + 1;
    }
    assert exif[..i] == exif;
    r := Some(Sanitize(Dict(info)));
  }
}
