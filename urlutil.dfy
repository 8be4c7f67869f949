/**
 * UrlUtil: trimming one trailing slash from a base address, and percent-encoding a secret
 * path segment by segment while keeping its slashes.
 */
module UrlUtil {
  import opened Wrappers
  import opened Text
  import opened FormEncoding

  /** UrlUtil.trimTrailingSlash: drops one final '/', if there is one; null stays null. */
  function TrimTrailingSlash(s: Option<string>): (r: Option<string>)
    ensures r.None? <==> s.None?
    ensures s.Some? && EndsWith(s.value, "/") ==> r.value + "/" == s.value
    ensures s.Some? && !EndsWith(s.value, "/") ==> r == s
  {
    match s
    case None => None
    case Some(t) => if EndsWith(t, "/") then Some(t[..|t| - 1]) else Some(t)
  }

  /** Exactly one slash goes: trimming t + "/" gives t back, whatever t ends with. */
  lemma TrimTrailingSlashOnce(t: string)
    ensures TrimTrailingSlash(Some(t + "/")) == Some(t)
  {
    assert (t + "/")[..|t|] == t;
  }

  // ---------------------------------------------------------------------------------------
  // Segment encoding: UrlUtil.urlEncode

  /** UrlUtil.urlEncode: URLEncoder's form encoding with each '+' then rewritten as "%20". */
  function UrlEncode(s: string): string
  {
    ReplaceChar(FormEncode(s), '+', "%20")
  }

  /** How one character of a segment ends up once urlEncode is done with it. */
  function SegmentChar(c: char): string
  {
    if IsUnreserved(c) then [c] else if c == ' ' then "%20" else PercentBytes(Utf8(c))
  }

  function EncodeChars(s: string): string
  {
    if s == [] then "" else SegmentChar(s[0]) + EncodeChars(s[1..])
  }

  lemma {:induction false} EncodeCharsAppend(a: string, b: string)
    ensures EncodeChars(a + b) == EncodeChars(a) + EncodeChars(b)
  {
    if a != [] {
      assert (a + b)[1..] == a[1..] + b;
      EncodeCharsAppend(a[1..], b);
    } else {
      assert a + b == b;
    }
  }

  lemma {:induction false} PercentBytesChars(bs: seq<byte>)
    ensures forall c :: c in PercentBytes(bs) ==> c == '%' || IsUnreserved(c)
  {
    if bs != [] {
      PercentBytesChars(bs[1..]);
    }
  }

  /** Rewriting '+' after form encoding only touches the '+' that stood for a space. */
  lemma {:induction false} UrlEncodeByChar(s: string)
    ensures UrlEncode(s) == EncodeChars(s)
  {
    if s != [] {
      ReplaceCharAppend(FormEncodeChar(s[0]), FormEncode(s[1..]), '+', "%20");
      UrlEncodeByChar(s[1..]);
      var c := s[0];
      if !IsUnreserved(c) && c != ' ' {
        PercentBytesChars(Utf8(c));
        ReplaceCharAbsent(PercentBytes(Utf8(c)), '+', "%20");
      }
    }
  }

  /** A space in a segment is written "%20", never '+'. */
  lemma SpaceIsPercent20(a: string, b: string)
    ensures UrlEncode(a + " " + b) == UrlEncode(a) + "%20" + UrlEncode(b)
  {
    UrlEncodeByChar(a + " " + b);
    UrlEncodeByChar(a);
    UrlEncodeByChar(b);
    EncodeCharsAppend(a + " ", b);
    EncodeCharsAppend(a, " ");
  }

  /** A segment made only of unreserved characters is left as it is. */
  lemma {:induction false} UrlEncodeUnreserved(s: string)
    requires forall k :: 0 <= k < |s| ==> IsUnreserved(s[k])
    ensures UrlEncode(s) == s
  {
    UrlEncodeByChar(s);
    UnreservedChars(s);
  }

  lemma {:induction false} UnreservedChars(s: string)
    requires forall k :: 0 <= k < |s| ==> IsUnreserved(s[k])
    ensures EncodeChars(s) == s
  {
    if s != [] {
      UnreservedChars(s[1..]);
    }
  }

  predicate IsUpperHexDigit(c: char) { ('0' <= c <= '9') || ('A' <= c <= 'F') }

  /** Text made only of unreserved characters and %XX triples with upper-case hexadecimal digits. */
  predicate IsEncoded(e: string)
    decreases |e|
  {
    || e == []
    || (IsUnreserved(e[0]) && IsEncoded(e[1..]))
    || (|e| >= 3 && e[0] == '%' && IsUpperHexDigit(e[1]) && IsUpperHexDigit(e[2]) && IsEncoded(e[3..]))
  }

  lemma {:induction false} IsEncodedAppend(a: string, b: string)
    requires IsEncoded(a) && IsEncoded(b)
    ensures IsEncoded(a + b)
    decreases |a|
  {
    if a == [] {
      assert a + b == b;
    } else if IsUnreserved(a[0]) && IsEncoded(a[1..]) {
      IsEncodedAppend(a[1..], b);
      assert (a + b)[1..] == a[1..] + b;
    } else {
      IsEncodedAppend(a[3..], b);
      assert (a + b)[3..] == a[3..] + b;
    }
  }

  lemma {:induction false} IsEncodedPercentBytes(bs: seq<byte>)
    ensures IsEncoded(PercentBytes(bs))
  {
    if bs != [] {
      IsEncodedPercentBytes(bs[1..]);
      var e := PercentBytes(bs);
      assert e[3..] == PercentBytes(bs[1..]);
    }
  }

  /** Every encoded segment is unreserved characters and %XX triples. */
  lemma {:induction false} UrlEncodeIsEncoded(s: string)
    ensures IsEncoded(UrlEncode(s))
  {
    UrlEncodeByChar(s);
    EncodeCharsIsEncoded(s);
  }

  lemma {:induction false} EncodeCharsIsEncoded(s: string)
    ensures IsEncoded(EncodeChars(s))
  {
    if s != [] {
      EncodeCharsIsEncoded(s[1..]);
      var c := s[0];
      if IsUnreserved(c) {
        assert IsEncoded([c][1..]);
      } else if c == ' ' {
        assert "%20"[3..] == [];
      } else {
        IsEncodedPercentBytes(Utf8(c));
      }
      IsEncodedAppend(SegmentChar(c), EncodeChars(s[1..]));
    }
  }

  /** In particular an encoded segment holds no '/', '+' or space. */
  lemma {:induction false} EncodedHasNoSeparators(e: string)
    requires IsEncoded(e)
    ensures '/' !in e && '+' !in e && ' ' !in e
    decreases |e|
  {
    if e != [] {
      if IsUnreserved(e[0]) && IsEncoded(e[1..]) {
        EncodedHasNoSeparators(e[1..]);
        assert e == [e[0]] + e[1..];
      } else {
        EncodedHasNoSeparators(e[3..]);
        assert e == e[..3] + e[3..];
      }
    }
  }

  /** Percent-decoding followed by UTF-8 decoding: the reading side of urlEncode. */
  function UrlDecode(e: string): Option<string>
  {
    match PercentDecode(e)
    case None => None
    case Some(bytes) => Utf8Decode(bytes)
  }

  lemma {:induction false} PercentDecodeOfEncodeChars(s: string)
    ensures PercentDecode(EncodeChars(s)) == Some(Utf8String(s))
  {
    if s != [] {
      PercentDecodeOfEncodeChars(s[1..]);
      var c := s[0];
      var t := EncodeChars(s[1..]);
      if IsUnreserved(c) {
        assert ([c] + t)[1..] == t;
      } else if c == ' ' {
        assert PercentBytes([32 as byte]) == "%20";
        PercentDecodeOfPercentBytes([32 as byte], t, Utf8String(s[1..]));
      } else {
        PercentDecodeOfPercentBytes(Utf8(c), t, Utf8String(s[1..]));
      }
    }
  }

  /** Decoding an encoded segment recovers the segment. */
  lemma UrlDecodeOfUrlEncode(s: string)
    ensures UrlDecode(UrlEncode(s)) == Some(s)
  {
    UrlEncodeByChar(s);
    PercentDecodeOfEncodeChars(s);
    Utf8RoundTrip(s);
  }

  // ---------------------------------------------------------------------------------------
  // Path splitting: String.split("/")

  /** Every '/'-separated piece of s, empty ones included (split with a negative limit). */
  function Pieces(s: string): (r: seq<string>)
    ensures |r| >= 1
    ensures forall k :: 0 <= k < |r| ==> '/' !in r[k]
  {
    if s == [] then [""]
    else if s[0] == '/' then [""] + Pieces(s[1..])
    else
      var rest := Pieces(s[1..]);
      [[s[0]] + rest[0]] + rest[1..]
  }

  /** Drops the empty strings at the end of a list. */
  function DropTrailingEmpty(parts: seq<string>): (r: seq<string>)
    ensures r <= parts
    ensures r == [] || r[|r| - 1] != ""
    ensures forall k :: |r| <= k < |parts| ==> parts[k] == ""
  {
    if parts != [] && parts[|parts| - 1] == "" then DropTrailingEmpty(parts[..|parts| - 1]) else parts
  }

  /**
   * String.split("/") with its default limit of 0: the whole string when it holds no '/',
   * otherwise every piece with the trailing empty pieces removed.
   */
  function Split(s: string): seq<string>
  {
    if '/' !in s then [s] else DropTrailingEmpty(Pieces(s))
  }

  /** The parts with '/' between them. */
  function Join(parts: seq<string>): string
  {
    if parts == [] then "" else if |parts| == 1 then parts[0] else parts[0] + "/" + Join(parts[1..])
  }

  /** Each segment encoded by urlEncode. */
  function EncodeAll(segments: seq<string>): (r: seq<string>)
    ensures |r| == |segments| && forall k :: 0 <= k < |r| ==> r[k] == UrlEncode(segments[k])
  {
    seq(|segments|, k requires 0 <= k < |segments| => UrlEncode(segments[k]))
  }

  /** UrlUtil.encodePath as a value: "" for null or "", else the encoded segments of split("/") joined by '/'. */
  function EncodedPath(path: Option<string>): (r: string)
    ensures path.None? || path.value == "" ==> r == ""
  {
    if path.None? || path.value == "" then "" else Join(EncodeAll(Split(path.value)))
  }

  lemma JoinAppend(parts: seq<string>, x: string)
    requires parts != []
    ensures Join(parts + [x]) == Join(parts) + "/" + x
  {
    if |parts| > 1 {
      assert (parts + [x])[1..] == parts[1..] + [x];
      JoinAppend(parts[1..], x);
    }
  }

  /** One more element of a prefix. */
  lemma PrefixGrows<T>(s: seq<T>, i: nat)
    requires i < |s|
    ensures s[..i + 1] == s[..i] + [s[i]]
  {
  }

  /** UrlUtil.encodePath: the loop over the split segments, appending to a builder. */
  method EncodePath(path: Option<string>) returns (r: string)
    ensures r == EncodedPath(path)
  {
    if path.None? || path.value == "" {
      return "";
    }
    var parts := Split(path.value);
    ghost var encoded := EncodeAll(parts);
    var sb := "";
    var i := 0;
    while i < |parts|
      invariant 0 <= i <= |parts|
      invariant sb == Join(encoded[..i])
    {
      if i > 0 {
        sb := sb + "/";
        JoinAppend(encoded[..i], encoded[i]);
      }
      sb := sb + UrlEncode(parts[i]);
      PrefixGrows(encoded, i);
      i := i + 1;
    }
    assert encoded[..i] == encoded;
    r := sb;
  }

  // ---------------------------------------------------------------------------------------
  // What encodePath promises

  lemma JoinCons(x: string, parts: seq<string>)
    requires parts != []
    ensures Join([x + parts[0]] + parts[1..]) == x + Join(parts)
  {
  }

  /** Joining the pieces of s with '/' gives s back. */
  lemma {:induction false} JoinPieces(s: string)
    ensures Join(Pieces(s)) == s
  {
    if s != [] {
      JoinPieces(s[1..]);
      if s[0] == '/' {
        assert ([""] + Pieces(s[1..]))[1..] == Pieces(s[1..]);
      } else {
        JoinCons([s[0]], Pieces(s[1..]));
      }
    }
  }

  /** A string without '/' is a single piece. */
  lemma {:induction false} PiecesOfSlashFree(x: string)
    requires '/' !in x
    ensures Pieces(x) == [x]
  {
    if x != [] {
      PiecesOfSlashFree(x[1..]);
      assert [x[0]] + x[1..] == x;
    }
  }

  lemma {:induction false} PiecesAfterSegment(x: string, t: string)
    requires '/' !in x
    ensures Pieces(x + "/" + t) == [x] + Pieces(t)
  {
    if x == [] {
      assert x + "/" + t == "/" + t;
      assert ("/" + t)[1..] == t;
    } else {
      var s := x + "/" + t;
      assert s[0] == x[0] && s[1..] == x[1..] + "/" + t;
      PiecesAfterSegment(x[1..], t);
      var rest := Pieces(s[1..]);
      assert rest == [x[1..]] + Pieces(t);
      assert [x[0]] + x[1..] == x;
      assert Pieces(s) == [[x[0]] + rest[0]] + rest[1..];
    }
  }

  /** Splitting a '/'-join of slash-free parts at every '/' gives back the parts. */
  lemma {:induction false} PiecesOfJoin(parts: seq<string>)
    requires parts != []
    requires forall k :: 0 <= k < |parts| ==> '/' !in parts[k]
    ensures Pieces(Join(parts)) == parts
  {
    if |parts| == 1 {
      PiecesOfSlashFree(parts[0]);
    } else {
      PiecesOfJoin(parts[1..]);
      PiecesAfterSegment(parts[0], Join(parts[1..]));
    }
  }

  lemma {:induction false} PiecesAppendSlash(s: string)
    ensures Pieces(s + "/") == Pieces(s) + [""]
  {
    if s == [] {
      assert ("/")[1..] == [];
    } else {
      assert (s + "/")[1..] == s[1..] + "/";
      PiecesAppendSlash(s[1..]);
    }
  }

  /** The last element and the ones before it, of a list with one more element in front. */
  lemma ConsLast<T>(x: T, p: seq<T>)
    requires p != []
    ensures var q := [x] + p; q[..|q| - 1] == [x] + p[..|p| - 1] && q[|q| - 1] == p[|p| - 1]
  {
  }

  /** Replacing the last element commutes with putting one in front. */
  lemma ConsReplaceLast<T>(x: T, p: seq<T>, y: T)
    requires p != []
    ensures [x] + (p[..|p| - 1] + [y]) == ([x] + p)[..|p|] + [y]
  {
  }

  /** Appending a character other than '/' to s lengthens the last of its pieces. */
  ghost predicate AppendsToLast(s: string, c: char)
  {
    var p := Pieces(s); Pieces(s + [c]) == p[..|p| - 1] + [p[|p| - 1] + [c]]
  }

  lemma {:induction false} PiecesAppendChar(s: string, c: char)
    requires c != '/'
    ensures AppendsToLast(s, c)
  {
    if s == [] {
      assert s + [c] == [c] && [c][1..] == [];
      assert Pieces([c]) == [[c] + ""];
      assert [c] + "" == [c];
    } else {
      PiecesAppendChar(s[1..], c);
      assert (s + [c])[1..] == s[1..] + [c];
      if s[0] == '/' {
        AppendAfterSlash(s, c);
      } else if |Pieces(s[1..])| == 1 {
        AppendToOnlyPiece(s, c);
      } else {
        AppendAfterFirstPiece(s, c);
      }
    }
  }

  lemma AppendAfterSlash(s: string, c: char)
    requires c != '/' && s != [] && s[0] == '/'
    requires (s + [c])[1..] == s[1..] + [c] && AppendsToLast(s[1..], c)
    ensures AppendsToLast(s, c)
  {
    SlashStep(Pieces(s[1..]), [c]);
  }

  lemma AppendToOnlyPiece(s: string, c: char)
    requires c != '/' && s != [] && s[0] != '/' && |Pieces(s[1..])| == 1
    requires (s + [c])[1..] == s[1..] + [c] && AppendsToLast(s[1..], c)
    ensures AppendsToLast(s, c)
  {
    var p' := Pieces(s[1..]);
    assert [s[0]] + (p'[0] + [c]) == ([s[0]] + p'[0]) + [c];
  }

  lemma AppendAfterFirstPiece(s: string, c: char)
    requires c != '/' && s != [] && s[0] != '/' && |Pieces(s[1..])| > 1
    requires (s + [c])[1..] == s[1..] + [c] && AppendsToLast(s[1..], c)
    ensures AppendsToLast(s, c)
  {
    CharStep(s[0], Pieces(s[1..]), [c]);
  }

  /** Pieces after a leading '/': an empty piece in front. */
  lemma SlashStep(p: seq<string>, tail: string)
    requires p != []
    ensures var q := [""] + p;
      [""] + (p[..|p| - 1] + [p[|p| - 1] + tail]) == q[..|q| - 1] + [q[|q| - 1] + tail]
  {
    ConsLast("", p);
    ConsReplaceLast("", p, p[|p| - 1] + tail);
  }

  /** Pieces after a leading ordinary character, with more than one piece: it joins the first. */
  lemma CharStep(x: char, p: seq<string>, tail: string)
    requires |p| > 1
    ensures var q := [[x] + p[0]] + p[1..];
      var r := p[..|p| - 1] + [p[|p| - 1] + tail];
      [[x] + r[0]] + r[1..] == q[..|q| - 1] + [q[|q| - 1] + tail]
  {
    var head := [x] + p[0];
    var rest := p[1..];
    var r := p[..|p| - 1] + [p[|p| - 1] + tail];
    assert r[0] == p[0];
    assert r[1..] == rest[..|rest| - 1] + [rest[|rest| - 1] + tail];
    ConsLast(head, rest);
    ConsReplaceLast(head, rest, rest[|rest| - 1] + tail);
  }

  /** The string with all of its trailing slashes removed. */
  function TrimSlashes(s: string): (r: string)
    ensures r <= s
  {
    if s != [] && s[|s| - 1] == '/' then TrimSlashes(s[..|s| - 1]) else s
  }

  /** Dropping the trailing empty pieces is dropping the trailing slashes. */
  lemma {:induction false} JoinDropTrailingEmpty(s: string)
    ensures Join(DropTrailingEmpty(Pieces(s))) == TrimSlashes(s)
    decreases |s|
  {
    if s == [] {
    } else if s[|s| - 1] == '/' {
      var t := s[..|s| - 1];
      assert t + "/" == s;
      PiecesAppendSlash(t);
      assert (Pieces(t) + [""])[..|Pieces(t)|] == Pieces(t);
      JoinDropTrailingEmpty(t);
    } else {
      var t := s[..|s| - 1];
      assert t + [s[|s| - 1]] == s;
      PiecesAppendChar(t, s[|s| - 1]);
      JoinPieces(s);
    }
  }

  /** For a non-empty string, split("/") is the pieces without the trailing empty ones. */
  lemma SplitNonEmpty(s: string)
    requires s != ""
    ensures Split(s) == DropTrailingEmpty(Pieces(s))
  {
    if '/' !in s {
      PiecesOfSlashFree(s);
    }
  }

  /**
   * A path made of unreserved characters and '/' encodes to itself minus its trailing
   * slashes: "a/b/" becomes "a/b", "/a" keeps its leading '/', and a path with no trailing '/'
   * is unchanged.
   */
  lemma EncodedSafePath(p: string)
    requires p != ""
    requires forall k :: 0 <= k < |p| ==> IsUnreserved(p[k]) || p[k] == '/'
    ensures EncodedPath(Some(p)) == TrimSlashes(p)
  {
    SplitNonEmpty(p);
    var segments := Split(p);
    PiecesUnreserved(p);
    forall k | 0 <= k < |segments|
      ensures UrlEncode(segments[k]) == segments[k]
    {
      assert segments[k] == Pieces(p)[k];
      UrlEncodeUnreserved(segments[k]);
    }
    assert EncodeAll(segments) == segments;
    JoinDropTrailingEmpty(p);
  }

  /** The pieces of a path of unreserved characters and '/' are made of unreserved characters. */
  lemma {:induction false} PiecesUnreserved(s: string)
    requires forall k :: 0 <= k < |s| ==> IsUnreserved(s[k]) || s[k] == '/'
    ensures forall k, j :: 0 <= k < |Pieces(s)| && 0 <= j < |Pieces(s)[k]| ==> IsUnreserved(Pieces(s)[k][j])
  {
    if s != [] {
      PiecesUnreserved(s[1..]);
    }
  }

  /**
   * The segments survive encoding: cutting the encoded path at its slashes gives exactly the
   * encoded segments of split("/"), and decoding each of them gives the original segment.
   */
  lemma EncodedPathSegments(p: string)
    requires p != "" && Split(p) != []
    ensures Pieces(EncodedPath(Some(p))) == EncodeAll(Split(p))
    ensures forall k :: 0 <= k < |Split(p)| ==> UrlDecode(Pieces(EncodedPath(Some(p)))[k]) == Some(Split(p)[k])
  {
    var encoded := EncodeAll(Split(p));
    forall k | 0 <= k < |encoded| ensures '/' !in encoded[k] {
      UrlEncodeIsEncoded(Split(p)[k]);
      EncodedHasNoSeparators(encoded[k]);
    }
    PiecesOfJoin(encoded);
    forall k | 0 <= k < |Split(p)| ensures UrlDecode(encoded[k]) == Some(Split(p)[k]) {
      UrlDecodeOfUrlEncode(Split(p)[k]);
    }
  }
}
