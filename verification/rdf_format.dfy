/** Choosing the parser's serialization format from a file name. */
module RdfFormats {
  import opened Types

  datatype RdfFormat = NTriples | Turtle | RdfXml | TriG | N3 | NQuads

  /** The one extension each format is recognised by. */
  function Extension(f: RdfFormat): string {
    match f
    case NTriples => "nt"
    case Turtle => "ttl"
    case RdfXml => "rdf"
    case TriG => "trig"
    case N3 => "n3"
    case NQuads => "nq"
  }

  /** `FromStr`: exact, case-sensitive match on the six extensions; anything
      else is an unknown format carrying the string it was given. */
  function FromStr(s: string): (r: Result<RdfFormat>)
    ensures r.Ok? <==> s in {"nt", "ttl", "rdf", "trig", "n3", "nq"}
    ensures r.Ok? ==> Extension(r.value) == s
    ensures r.Err? ==> r.error == UnknownFormat(s)
  {
    match s
    case "nt" => Ok(NTriples)
    case "ttl" => Ok(Turtle)
    case "rdf" => Ok(RdfXml)
    case "trig" => Ok(TriG)
    case "n3" => Ok(N3)
    case "nq" => Ok(NQuads)
    case _ => Err(UnknownFormat(s))
  }

  /** Every format is recognised by its own extension. */
  lemma FromStrRoundTrip(f: RdfFormat)
    ensures FromStr(Extension(f)) == Ok(f)
  {
  }

  /** The pieces of `s` between occurrences of `c`, as `str::split` yields
      them: always at least one piece, possibly empty ones. */
  function Split(s: string, c: char): (r: seq<string>)
    ensures |r| >= 1
    ensures forall k :: 0 <= k < |r| ==> c !in r[k]
  {
    if |s| == 0 then [""]
    else
      var rest := Split(s[1..], c);
      if s[0] == c then [""] + rest else [[s[0]] + rest[0]] + rest[1..]
  }

  /** Joins pieces back with the separator in between. */
  function Join(pieces: seq<string>, c: char): string
    requires |pieces| >= 1
  {
    if |pieces| == 1 then pieces[0] else pieces[0] + [c] + Join(pieces[1..], c)
  }

  /** Splitting loses nothing: joining the pieces gives the input back. */
  lemma {:induction false} SplitJoin(s: string, c: char)
    ensures Join(Split(s, c), c) == s
    decreases |s|
  {
    if |s| > 0 {
      var rest := Split(s[1..], c);
      SplitJoin(s[1..], c);
      if s[0] != c && |rest| > 1 {
        assert Join(rest, c) == rest[0] + [c] + Join(rest[1..], c);
        assert [[s[0]] + rest[0]] + rest[1..] == [[s[0]] + rest[0]] + rest[1..];
        assert ([[s[0]] + rest[0]] + rest[1..])[1..] == rest[1..];
      }
      assert s == [s[0]] + s[1..];
    }
  }

  lemma {:induction false} JoinLength(pieces: seq<string>, c: char)
    requires |pieces| >= 1
    ensures |Join(pieces, c)| >= |pieces[|pieces| - 1]| + |pieces| - 1
    decreases |pieces|
  {
    if |pieces| > 1 {
      JoinLength(pieces[1..], c);
    }
  }

  /** `Iterator::last` over the pieces. */
  function Last(pieces: seq<string>): Option<string> {
    if |pieces| == 0 then None else Some(pieces[|pieces| - 1])
  }

  /** The extension of a path: its longest suffix without a dot. */
  predicate IsExtensionOf(ext: string, path: string) {
    && |ext| <= |path|
    && path[|path| - |ext|..] == ext
    && '.' !in ext
    && (|ext| == |path| || path[|path| - |ext| - 1] == '.')
  }

  /** The last piece of a split is the longest separator-free suffix. */
  lemma {:induction false} SplitLastIsSuffix(s: string)
    ensures IsExtensionOf(Split(s, '.')[|Split(s, '.')| - 1], s)
    decreases |s|
  {
    if |s| > 0 {
      SplitLastIsSuffix(s[1..]);
      if s[0] != '.' && |Split(s[1..], '.')| == 1 {
        SplitWhole(s);
      } else {
        SplitLastInTail(s);
      }
    }
  }

  /** A string whose tail has no dot, and which does not start with one,
      splits into itself. */
  lemma SplitWhole(s: string)
    requires |s| > 0 && s[0] != '.' && |Split(s[1..], '.')| == 1
    ensures Split(s, '.') == [s]
  {
    SplitJoin(s[1..], '.');
    assert s == [s[0]] + s[1..];
  }

  /** Otherwise the last piece is that of the tail, and it stays a
      dot-delimited suffix once the first character is put back. */
  lemma SplitLastInTail(s: string)
    requires |s| > 0 && (s[0] == '.' || |Split(s[1..], '.')| > 1)
    requires IsExtensionOf(Split(s[1..], '.')[|Split(s[1..], '.')| - 1], s[1..])
    ensures IsExtensionOf(Split(s, '.')[|Split(s, '.')| - 1], s)
  {
    var rest := Split(s[1..], '.');
    if |rest| > 1 {
      SplitJoin(s[1..], '.');
      JoinLength(rest, '.');
    }
    SplitKeepsTailLast(s);
    SuffixExtends(s, rest[|rest| - 1]);
  }

  /** A dot-delimited suffix of the tail is one of the whole string too,
      unless it spans the tail and the first character is not a dot. */
  lemma SuffixExtends(s: string, ext: string)
    requires |s| > 0 && IsExtensionOf(ext, s[1..])
    requires |ext| < |s| - 1 || s[0] == '.'
    ensures IsExtensionOf(ext, s)
  {
    var t := s[1..];
    assert s[|s| - |ext|..] == t[|t| - |ext|..];
    if |ext| == |t| {
      assert s[|s| - |ext| - 1] == s[0];
    } else {
      assert s[|s| - |ext| - 1] == t[|t| - |ext| - 1];
    }
  }

  /** When the first character is a dot or the tail has a dot, splitting
      keeps the tail's last piece. */
  lemma SplitKeepsTailLast(s: string)
    requires |s| > 0 && (s[0] == '.' || |Split(s[1..], '.')| > 1)
    ensures Split(s, '.')[|Split(s, '.')| - 1] == Split(s[1..], '.')[|Split(s[1..], '.')| - 1]
  {
    var rest := Split(s[1..], '.');
    var whole := Split(s, '.');
    if s[0] == '.' {
      assert whole == [""] + rest;
    } else {
      assert whole == [[s[0]] + rest[0]] + rest[1..];
      assert whole[|whole| - 1] == rest[1..][|rest| - 2];
    }
  }

  /** `from_path`: the format named by the text after the last dot, or by the
      whole path when it has no dot. The missing-piece branch cannot be
      taken because splitting always yields a piece. */
  function FromPath(path: string): (r: Result<RdfFormat>)
    ensures exists ext :: IsExtensionOf(ext, path) && r == FromStr(ext)
  {
    SplitLastIsSuffix(path);
    match Last(Split(path, '.'))
    case None => Err(UnknownFormat(path))
    case Some(ext) => FromStr(ext)
  }

  /** Only one string is the extension of a path. */
  lemma ExtensionUnique(a: string, b: string, path: string)
    requires IsExtensionOf(a, path) && IsExtensionOf(b, path)
    ensures a == b
  {
  }

  /** The extension passed on to `FromStr` never contains a dot, and the
      format depends on nothing but that extension. */
  lemma FromPathUsesExtension(path: string, ext: string)
    requires IsExtensionOf(ext, path)
    ensures FromPath(path) == FromStr(ext)
    ensures '.' !in ext
  {
    var ext' :| IsExtensionOf(ext', path) && FromPath(path) == FromStr(ext');
    ExtensionUnique(ext, ext', path);
  }

  /** The examples the format selection is meant to handle. */
  lemma FromPathExamples()
    ensures FromPath("a.b.ttl") == Ok(Turtle)
    ensures FromPath("foo") == Err(UnknownFormat("foo"))
    ensures FromPath("file.") == Err(UnknownFormat(""))
    ensures FromPath("data.TTL") == Err(UnknownFormat("TTL"))
  {
    ExtensionOfNested();
    ExtensionOfPlain();
    ExtensionOfTrailingDot();
    ExtensionOfUpperCase();
  }

  lemma ExtensionOfNested()
    ensures FromPath("a.b.ttl") == Ok(Turtle)
  {
    assert "a.b.ttl"[4..] == "ttl";
    FromPathUsesExtension("a.b.ttl", "ttl");
  }

  lemma ExtensionOfPlain()
    ensures FromPath("foo") == Err(UnknownFormat("foo"))
  {
    FromPathUsesExtension("foo", "foo");
  }

  lemma ExtensionOfTrailingDot()
    ensures FromPath("file.") == Err(UnknownFormat(""))
  {
    assert "file."[5..] == "";
    FromPathUsesExtension("file.", "");
  }

  lemma ExtensionOfUpperCase()
    ensures FromPath("data.TTL") == Err(UnknownFormat("TTL"))
  {
    assert "data.TTL"[5..] == "TTL";
    FromPathUsesExtension("data.TTL", "TTL");
  }
}
