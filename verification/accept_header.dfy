/**
 * `_parse_accept_header` and `get_accepted_mimetype`: parses an HTTP Accept
 * header into media ranges with their parameters and quality values, turns
 * vendor-specific types into their generic form, orders the ranges by
 * quality, and picks a mimetype from them.
 *
 * Python's `float()` is a given function (`None` = ValueError); quality
 * values are reals, so NaN and infinities are outside the model.
 */
module AcceptHeader {
  import opened Common
  import opened Strings

  /** A parameter value: text from the header, or the parsed version number of a vendor type. */
  datatype ParamValue = Text(text: string) | Number(number: real)

  datatype MediaRange = MediaRange(mediaType: string, params: map<string, ParamValue>, q: real)

  /** The quality of a range that gives none, and the version of a vendor type whose version does not parse. */
  const DefaultQ: real := 1.0
  const FallbackVersion: real := 1.0

  const UnpackError := "ValueError: wrong number of values to unpack"
  const FloatError := "ValueError: could not convert string to float"

  /**
   * The parts of a vendor subtype such as `vnd.example-v1.1+json`: the vendor
   * code, the text after its last `-v` (if it has one), and the suffix after `+`.
   */
  datatype Vendor = Vendor(vendor: string, version: Option<string>, suffix: string)

  /** Recognises a vendor-specific subtype: one with a `+` whose part before it starts with `vnd`. */
  function SplitVendor(subtype: string): (r: Option<Vendor>)
    ensures r.Some? <==> '+' in subtype && StartsWith(Partition(subtype, '+').0, "vnd")
    ensures r.Some? ==>
              subtype == r.value.vendor
                         + (if r.value.version.Some? then "-v" + r.value.version.value else "")
                         + "+" + r.value.suffix
    ensures r.Some? && r.value.version.Some? ==> !Contains(r.value.version.value, "-v")
    ensures r.Some? ==> r.value.suffix == Partition(subtype, '+').1
    ensures r.Some? ==> (r.value.version.Some? <==> Contains(Partition(subtype, '+').0, "-v"))
  {
    if '+' in subtype then
      var (vnd, extra) := Partition(subtype, '+');
      if StartsWith(vnd, "vnd") then Some(VendorOf(vnd, extra)) else None
    else None
  }

  /** The vendor part `vnd`, split at its last `-v` when it has one, with the suffix after the `+`. */
  function VendorOf(vnd: string, extra: string): (v: Vendor)
    ensures v.suffix == extra
    ensures vnd == v.vendor + (if v.version.Some? then "-v" + v.version.value else "")
    ensures v.version.Some? ==> !Contains(v.version.value, "-v")
    ensures v.version.Some? <==> Contains(vnd, "-v")
  {
    if Contains(vnd, "-v") then
      var (code, rest) := RPartition(vnd, "-v");
      Vendor(code, Some(rest), extra)
    else
      Vendor(vnd, None, extra)
  }

  /** The subtype a vendor type is written as: the inverse of `SplitVendor`. */
  function VendorSubtype(v: Vendor): string {
    v.vendor + (if v.version.Some? then "-v" + v.version.value else "") + "+" + v.suffix
  }

  /**
   * The vendor types that can be written unambiguously: the vendor code starts
   * with `vnd` and holds no `+`; a version holds neither `+` nor `-v`, and
   * without a version the code itself holds no `-v`.
   */
  predicate Writable(v: Vendor) {
    && StartsWith(v.vendor, "vnd") && '+' !in v.vendor
    && (v.version.Some? ==> '+' !in v.version.value && !Contains(v.version.value, "-v"))
    && (v.version.None? ==> !Contains(v.vendor, "-v"))
  }

  /** Splitting at the first occurrence of a character has only one outcome. */
  lemma FirstSplitUnique(a: string, b: string, a2: string, b2: string, c: char)
    requires a + [c] + b == a2 + [c] + b2
    requires c !in a && c !in a2
    ensures a == a2 && b == b2
  {
    var s := a + [c] + b;
    assert forall i :: 0 <= i < |a| ==> s[i] == a[i];
    assert forall i :: 0 <= i < |a2| ==> s[i] == a2[i];
    assert s[|a|] == c && s[|a2|] == c;
    assert |a| == |a2|;
    assert a == s[..|a|] == a2;
    assert b == s[|a| + 1..] == b2;
  }

  /** When `code2` is longer, the `-v` after it lies inside `rest`. */
  lemma LaterDashVInRest(code: string, rest: string, code2: string, rest2: string)
    requires code + "-v" + rest == code2 + "-v" + rest2
    requires |code| < |code2|
    ensures Contains(rest, "-v")
  {
    var s := code + "-v" + rest;
    var d := |code2| - |code|;
    assert s[|code2|] == '-' && s[|code2| + 1] == 'v';
    assert s[|code| + 1] == 'v';
    assert d >= 2;
    assert rest[d - 2..d] == s[|code2|..|code2| + 2];
    assert SubAt(rest, "-v", d - 2);
  }

  /** Splitting at the last `-v` has only one outcome, since `-v` cannot overlap itself. */
  lemma LastDashVUnique(code: string, rest: string, code2: string, rest2: string)
    requires code + "-v" + rest == code2 + "-v" + rest2
    requires !Contains(rest, "-v") && !Contains(rest2, "-v")
    ensures code == code2 && rest == rest2
  {
    var s := code + "-v" + rest;
    if |code| < |code2| {
      LaterDashVInRest(code, rest, code2, rest2);
    } else if |code2| < |code| {
      LaterDashVInRest(code2, rest2, code, rest);
    }
    assert code == s[..|code|] == code2;
    assert rest == s[|code| + 2..] == rest2;
  }

  /** Splitting a written vendor subtype gives back the vendor type it was written from. */
  lemma VendorRoundTrip(v: Vendor)
    requires Writable(v)
    ensures SplitVendor(VendorSubtype(v)) == Some(v)
  {
    var ver := if v.version.Some? then "-v" + v.version.value else "";
    var vnd := v.vendor + ver;
    var s := VendorSubtype(v);
    assert s == vnd + ['+'] + v.suffix;
    assert '+' !in ver;
    assert '+' !in vnd;
    var (p0, p1) := Partition(s, '+');
    FirstSplitUnique(p0, p1, vnd, v.suffix, '+');
    assert Partition(s, '+') == (vnd, v.suffix);
    assert vnd[..3] == v.vendor[..3];
    assert StartsWith(vnd, "vnd");
    if v.version.Some? {
      assert vnd == v.vendor + "-v" + v.version.value;
      assert SubAt(vnd, "-v", |v.vendor|);
      var (code, rest) := RPartition(vnd, "-v");
      LastDashVUnique(code, rest, v.vendor, v.version.value);
      assert VendorOf(vnd, v.suffix) == v;
    } else {
      assert vnd == v.vendor;
      assert VendorOf(vnd, v.suffix) == v;
    }
  }

  /** The parameters a vendor type contributes: its version when one follows `-v`, then the vendor code. */
  function VendorParams(v: Vendor, toFloat: string -> Option<real>): (r: seq<(string, ParamValue)>)
    ensures |r| >= 1 && r[|r| - 1] == ("vendor", Text(v.vendor))
    ensures |r| == 2 <==> v.version.Some? && v.version.value != []
    ensures |r| == 2 ==> r[0].0 == "version"
    ensures |r| == 2 && toFloat(v.version.value).Some? ==> r[0].1 == Number(toFloat(v.version.value).value)
    ensures |r| == 2 && toFloat(v.version.value).None? ==> r[0].1 == Number(FallbackVersion)
  {
    var version :=
      if v.version.Some? && v.version.value != [] then
        var n := toFloat(v.version.value);
        [("version", Number(if n.Some? then n.value else FallbackVersion))]
      else [];
    version + [("vendor", Text(v.vendor))]
  }

  /** One `;`-parameter after classification. */
  datatype Param =
    | Malformed                       // no `=`: the unpacking raises
    | Quality(value: Option<real>)    // `q=...`, with its value as `float()` reads it
    | Named(key: string, text: string)

  /** One parameter, split at its first `=` after leading whitespace, key and value trimmed. */
  function ClassifyParam(part: string, toFloat: string -> Option<real>): (r: Param)
    ensures r.Malformed? <==> '=' !in LStrip(part)
    ensures r.Quality? <==> '=' in LStrip(part) && Strip(Partition(LStrip(part), '=').0) == "q"
    ensures r.Quality? ==> r.value == toFloat(Strip(Partition(LStrip(part), '=').1))
    ensures r.Named? ==> r.key != "q"
    ensures r.Named? ==> r.key == Strip(Partition(LStrip(part), '=').0)
                         && r.text == Strip(Partition(LStrip(part), '=').1)
  {
    var trimmed := LStrip(part);
    if '=' !in trimmed then Malformed
    else
      var key := Strip(Partition(trimmed, '=').0);
      var value := Strip(Partition(trimmed, '=').1);
      if key == "q" then Quality(toFloat(value)) else Named(key, value)
  }

  /** A parameter the loop gets through. */
  predicate GoodParam(p: Param) {
    !p.Malformed? && !(p.Quality? && p.value.None?)
  }

  /**
   * The parameter loop: the named parameters in order, and the quality,
   * which each `q` parameter overwrites; the first bad parameter raises.
   */
  function ParseParams(ps: seq<Param>): (r: Result<(seq<(string, ParamValue)>, real), string>)
    ensures r.Ok? <==> forall i :: 0 <= i < |ps| ==> GoodParam(ps[i])
  {
    if |ps| == 0 then Ok(([], DefaultQ))
    else
      var init := ps[..|ps| - 1];
      assert forall i :: 0 <= i < |init| ==> init[i] == ps[i];
      match ParseParams(init)
      case Err(e) => Err(e)
      case Ok((named, q)) =>
        match ps[|ps| - 1]
        case Malformed => Err(UnpackError)
        case Quality(n) => if n.None? then Err(FloatError) else Ok((named, n.value))
        case Named(k, v) => Ok((named + [(k, Text(v))], q))
  }

  /** The pair a parameter contributes to the named list: its key and text if it is named, nothing otherwise. */
  function PairOf(p: Param): seq<(string, ParamValue)> {
    if p.Named? then [(p.key, Text(p.text))] else []
  }

  /** The named parameters of a list, in their order, as key and text pairs. */
  function NamedPairs(ps: seq<Param>): (r: seq<(string, ParamValue)>)
    ensures |r| <= |ps|
  {
    if |ps| == 0 then [] else PairOf(ps[0]) + NamedPairs(ps[1..])
  }

  /** Appending a parameter appends its pair, if it is named. */
  lemma {:induction false} NamedPairsAppend(ps: seq<Param>, x: Param)
    ensures NamedPairs(ps + [x]) == NamedPairs(ps) + PairOf(x)
    decreases |ps|
  {
    var xs := ps + [x];
    if |ps| == 0 {
      assert xs[1..] == [];
      assert NamedPairs(xs) == PairOf(x) + [];
    } else {
      assert xs[0] == ps[0];
      assert xs[1..] == ps[1..] + [x];
      NamedPairsAppend(ps[1..], x);
      assert NamedPairs(xs) == PairOf(ps[0]) + (NamedPairs(ps[1..]) + PairOf(x));
    }
  }

  /** The named parameters come out in their order, as key and text pairs. */
  lemma {:induction false} ParseParamsInOrder(ps: seq<Param>)
    requires ParseParams(ps).Ok?
    ensures ParseParams(ps).value.0 == NamedPairs(ps)
    decreases |ps|
  {
    if |ps| > 0 {
      var init := ps[..|ps| - 1];
      assert forall i :: 0 <= i < |init| ==> init[i] == ps[i];
      ParseParamsInOrder(init);
      assert ps == init + [ps[|ps| - 1]];
      NamedPairsAppend(init, ps[|ps| - 1]);
    }
  }

  /** The named parameters come out exactly: each one is kept, and nothing else is. */
  lemma {:induction false} ParseParamsNamed(ps: seq<Param>)
    requires ParseParams(ps).Ok?
    ensures var named := ParseParams(ps).value.0;
            && (forall i :: 0 <= i < |ps| && ps[i].Named? ==> (ps[i].key, Text(ps[i].text)) in named)
            && (forall x :: x in named ==> exists i :: 0 <= i < |ps| && ps[i].Named? && x == (ps[i].key, Text(ps[i].text)))
    decreases |ps|
  {
    if |ps| > 0 {
      var init := ps[..|ps| - 1];
      assert forall i :: 0 <= i < |init| ==> init[i] == ps[i];
      ParseParamsNamed(init);
    }
  }

  /** The quality is that of the last `q` parameter, or 1.0 when there is none. */
  lemma {:induction false} ParseParamsQuality(ps: seq<Param>)
    requires ParseParams(ps).Ok?
    ensures (forall i :: 0 <= i < |ps| ==> !ps[i].Quality?) ==> ParseParams(ps).value.1 == DefaultQ
    ensures forall i :: 0 <= i < |ps| && ps[i].Quality? && (forall j :: i < j < |ps| ==> !ps[j].Quality?) ==>
              ParseParams(ps).value.1 == ps[i].value.value
    decreases |ps|
  {
    if |ps| > 0 {
      var init := ps[..|ps| - 1];
      assert forall i :: 0 <= i < |init| ==> init[i] == ps[i];
      ParseParamsQuality(init);
    }
  }

  /** What the media type of a range is rewritten to, with the parameters its vendor part contributes. */
  function RewriteType(mediaType: string, typ: string, subtype: string, toFloat: string -> Option<real>)
    : (r: (string, seq<(string, ParamValue)>))
    ensures SplitVendor(subtype).None? ==> r == (mediaType, [])
    ensures SplitVendor(subtype).Some? ==> r.0 == typ + "/" + SplitVendor(subtype).value.suffix
    ensures SplitVendor(subtype).Some? ==> r.1 == VendorParams(SplitVendor(subtype).value, toFloat)
    ensures forall k :: 0 <= k < |r.1| ==> r.1[k].0 in {"version", "vendor"}
  {
    match SplitVendor(subtype)
    case None => (mediaType, [])
    case Some(v) => (typ + "/" + v.suffix, VendorParams(v, toFloat))
  }

  /** The media type of a range, trimmed, and its parameters, classified. */
  function MediaTypeText(range: string): string { Strip(Split(range, ';')[0]) }

  function Params(range: string, toFloat: string -> Option<real>): (r: seq<Param>)
    ensures |r| == |Split(range, ';')| - 1
    ensures forall i :: 0 <= i < |r| && r[i].Named? ==> r[i].key != "q"
  {
    var parts := Split(range, ';');
    seq(|parts| - 1, i requires 0 <= i < |parts| - 1 => ClassifyParam(parts[i + 1], toFloat))
  }

  /** The named parameters of a successful parameter loop never include `q`. */
  lemma {:induction false} NamedNotQ(ps: seq<Param>)
    requires ParseParams(ps).Ok?
    requires forall i :: 0 <= i < |ps| && ps[i].Named? ==> ps[i].key != "q"
    ensures forall k :: 0 <= k < |ParseParams(ps).value.0| ==> ParseParams(ps).value.0[k].0 != "q"
    decreases |ps|
  {
    if |ps| > 0 {
      var init := ps[..|ps| - 1];
      assert forall i :: 0 <= i < |init| ==> init[i] == ps[i];
      NamedNotQ(init);
    }
  }

  /**
   * A range from its rewritten type with the vendor parameters, and the
   * parameter loop's result; the vendor parameters come first, so an
   * explicit parameter of the same name wins.
   */
  function RangeOf(rewritten: (string, seq<(string, ParamValue)>), explicit: (seq<(string, ParamValue)>, real))
    : (m: MediaRange)
    requires forall k :: 0 <= k < |rewritten.1| ==> rewritten.1[k].0 != "q"
    requires forall k :: 0 <= k < |explicit.0| ==> explicit.0[k].0 != "q"
    ensures m.mediaType == rewritten.0 && m.q == explicit.1
    ensures m.params == Dict(rewritten.1 + explicit.0)
    ensures "q" !in m.params
  {
    var params := rewritten.1 + explicit.0;
    assert forall k :: 0 <= k < |params| ==> params[k].0 != "q" by {
      forall k | 0 <= k < |params| ensures params[k].0 != "q" {
        if k >= |rewritten.1| {
          assert params[k] == explicit.0[k - |rewritten.1|];
        }
      }
    }
    MediaRange(rewritten.0, Dict(params), explicit.1)
  }

  /** A media type that splits into exactly a type and a subtype at `/`. */
  predicate TwoPart(mediaType: string) {
    |Split(mediaType, '/')| == 2
  }

  /** The rewritten type of a range whose media type has two parts, and its vendor parameters. */
  function Rewritten(range: string, toFloat: string -> Option<real>): (string, seq<(string, ParamValue)>)
    requires TwoPart(MediaTypeText(range))
  {
    var ts := Split(MediaTypeText(range), '/');
    RewriteType(MediaTypeText(range), ts[0], ts[1], toFloat)
  }

  /**
   * One comma-separated element of the header: its type must hold exactly
   * one `/`, then the vendor rewrite, then the parameter loop. The vendor
   * parameters come before the explicit ones, so a later key overrides.
   */
  function ParseRange(range: string, toFloat: string -> Option<real>): (r: Result<MediaRange, string>)
    ensures r.Ok? <==> TwoPart(MediaTypeText(range)) && ParseParams(Params(range, toFloat)).Ok?
    ensures r.Ok? ==> "q" !in r.value.params
    ensures r.Ok? ==> r.value.q == ParseParams(Params(range, toFloat)).value.1
    ensures r.Ok? ==> r.value.mediaType == Rewritten(range, toFloat).0
    ensures r.Ok? ==> r.value.params == Dict(Rewritten(range, toFloat).1 + NamedPairs(Params(range, toFloat)))
  {
    if !TwoPart(MediaTypeText(range)) then Err(UnpackError)
    else
      var ps := Params(range, toFloat);
      match ParseParams(ps)
      case Err(e) => Err(e)
      case Ok(explicit) =>
        NamedNotQ(ps);
        ParseParamsInOrder(ps);
        Ok(RangeOf(Rewritten(range, toFloat), explicit))
  }

  /** The ranges in header order, or the error of the first bad one. */
  function ParseRanges(accept: string, toFloat: string -> Option<real>): (r: Result<seq<MediaRange>, string>) {
    MapAll(range => ParseRange(range, toFloat), Split(accept, ','))
  }

  /** Ascending by quality. */
  predicate SortedByQ(s: seq<MediaRange>) {
    forall i, j :: 0 <= i < j < |s| ==> s[i].q <= s[j].q
  }

  /** The ranges of one quality, in their order. */
  function WithQ(s: seq<MediaRange>, q: real): seq<MediaRange> {
    if |s| == 0 then []
    else WithQ(s[..|s| - 1], q) + (if s[|s| - 1].q == q then [s[|s| - 1]] else [])
  }

  /** The highest quality after inserting `x` into an ascending list. */
  function Top(sorted: seq<MediaRange>, x: MediaRange): real {
    if |sorted| == 0 || sorted[|sorted| - 1].q <= x.q then x.q else sorted[|sorted| - 1].q
  }

  /** Puts `x` after every range of lower or equal quality: one step of a stable sort. */
  function Insert(sorted: seq<MediaRange>, x: MediaRange): (r: seq<MediaRange>)
    ensures |r| == |sorted| + 1
  {
    if |sorted| == 0 then [x]
    else
      var last := sorted[|sorted| - 1];
      if last.q <= x.q then sorted + [x]
      else Insert(sorted[..|sorted| - 1], x) + [last]
  }

  /** Inserting into an ascending list keeps it ascending, topped by `x` or the old last range. */
  lemma {:induction false} InsertSorted(sorted: seq<MediaRange>, x: MediaRange)
    requires SortedByQ(sorted)
    ensures SortedByQ(Insert(sorted, x))
    ensures forall i :: 0 <= i < |Insert(sorted, x)| ==> Insert(sorted, x)[i].q <= Top(sorted, x)
    decreases |sorted|
  {
    if |sorted| > 0 {
      var init := sorted[..|sorted| - 1];
      var last := sorted[|sorted| - 1];
      if x.q < last.q {
        var front := Insert(init, x);
        assert Insert(sorted, x) == front + [last];
        assert SortedByQ(init);
        InsertSorted(init, x);
        assert Top(init, x) <= last.q;
        assert Top(sorted, x) == last.q;
      }
    }
  }

  /** Inserting adds exactly `x`. */
  lemma {:induction false} InsertPermutes(sorted: seq<MediaRange>, x: MediaRange)
    ensures multiset(Insert(sorted, x)) == multiset(sorted) + multiset{x}
    decreases |sorted|
  {
    if |sorted| > 0 {
      var init := sorted[..|sorted| - 1];
      var last := sorted[|sorted| - 1];
      if x.q < last.q {
        var front := Insert(init, x);
        assert Insert(sorted, x) == front + [last];
        InsertPermutes(init, x);
        assert multiset(sorted) == multiset(init) + multiset{last} by {
          assert sorted == init + [last];
        }
      }
    }
  }

  /** Python's `list.sort(key=itemgetter(2))`: stable, ascending by quality. */
  function SortByQ(s: seq<MediaRange>): (r: seq<MediaRange>)
    ensures SortedByQ(r)
    ensures multiset(r) == multiset(s)
  {
    if |s| == 0 then []
    else
      var init := s[..|s| - 1];
      assert s == init + [s[|s| - 1]];
      InsertPermutes(SortByQ(init), s[|s| - 1]);
      InsertSorted(SortByQ(init), s[|s| - 1]);
      Insert(SortByQ(init), s[|s| - 1])
  }

  lemma WithQAppend(s: seq<MediaRange>, x: MediaRange, q: real)
    ensures WithQ(s + [x], q) == WithQ(s, q) + (if x.q == q then [x] else [])
  {
    assert (s + [x])[..|s|] == s;
  }

  /** Inserting keeps the ranges of each quality in their order, with `x` last among its own. */
  lemma {:induction false} InsertStable(sorted: seq<MediaRange>, x: MediaRange, q: real)
    ensures WithQ(Insert(sorted, x), q) == WithQ(sorted, q) + (if x.q == q then [x] else [])
    decreases |sorted|
  {
    var xs: seq<MediaRange> := if x.q == q then [x] else [];
    if |sorted| == 0 {
      assert Insert(sorted, x) == [] + [x];
      WithQAppend([], x, q);
    } else {
      var init := sorted[..|sorted| - 1];
      var last := sorted[|sorted| - 1];
      if last.q <= x.q {
        WithQAppend(sorted, x, q);
      } else {
        var front := Insert(init, x);
        var ls: seq<MediaRange> := if last.q == q then [last] else [];
        assert Insert(sorted, x) == front + [last];
        InsertStable(init, x, q);
        WithQAppend(front, last, q);
        assert WithQ(sorted, q) == WithQ(init, q) + ls;
        if x.q == q {
          assert WithQ(init, q) + xs + [] == WithQ(init, q) + [] + xs;
        } else {
          assert WithQ(init, q) + [] + ls == WithQ(init, q) + ls + [];
        }
      }
    }
  }

  /** The sort is stable: the ranges of each quality keep their header order. */
  lemma {:induction false} SortStable(s: seq<MediaRange>, q: real)
    ensures WithQ(SortByQ(s), q) == WithQ(s, q)
    decreases |s|
  {
    if |s| > 0 {
      SortStable(s[..|s| - 1], q);
      InsertStable(SortByQ(s[..|s| - 1]), s[|s| - 1], q);
    }
  }

  /** `_parse_accept_header`: the parsed ranges, stably sorted by ascending quality. */
  function ParseAcceptHeader(accept: string, toFloat: string -> Option<real>): (r: Result<seq<MediaRange>, string>)
    ensures r.Ok? <==> ParseRanges(accept, toFloat).Ok?
    ensures r.Err? ==> r == ParseRanges(accept, toFloat)
    ensures r.Ok? ==> SortedByQ(r.value)
    ensures r.Ok? ==> multiset(r.value) == multiset(ParseRanges(accept, toFloat).value)
    ensures r.Ok? ==> forall q :: WithQ(r.value, q) == WithQ(ParseRanges(accept, toFloat).value, q)
  {
    match ParseRanges(accept, toFloat)
    case Err(e) => Err(e)
    case Ok(rs) =>
      var r := SortByQ(rs);
      assert forall q :: WithQ(r, q) == WithQ(rs, q) by {
        forall q ensures WithQ(r, q) == WithQ(rs, q) {
          SortStable(rs, q);
        }
      }
      Ok(r)
  }

  /** A range `choices` lets through; no choices (None or empty) lets every range through. */
  predicate Acceptable(m: MediaRange, choices: seq<string>) {
    |choices| == 0 || m.mediaType in choices
  }

  /** The first acceptable range in list order. */
  function FirstAcceptable(ranges: seq<MediaRange>, choices: seq<string>): (r: Option<MediaRange>)
    ensures r.None? <==> forall i :: 0 <= i < |ranges| ==> !Acceptable(ranges[i], choices)
    ensures r.Some? ==> exists i :: FirstAcceptableAt(ranges, choices, i) && ranges[i] == r.value
  {
    if |ranges| == 0 then None
    else if Acceptable(ranges[0], choices) then Some(ranges[0])
    else
      var r := FirstAcceptable(ranges[1..], choices);
      assert forall i :: 1 <= i < |ranges| ==> ranges[i] == ranges[1..][i - 1];
      assert r.Some? ==> exists i :: FirstAcceptableAt(ranges, choices, i) && ranges[i] == r.value by {
        if r.Some? {
          var i :| FirstAcceptableAt(ranges[1..], choices, i) && ranges[1..][i] == r.value;
          assert FirstAcceptableAt(ranges, choices, i + 1);
        }
      }
      r
  }

  /** The first acceptable range of highest quality. */
  function Preferred(ranges: seq<MediaRange>, choices: seq<string>): (r: Option<MediaRange>)
    ensures r.None? <==> forall i :: 0 <= i < |ranges| ==> !Acceptable(ranges[i], choices)
    ensures r.Some? ==> Acceptable(r.value, choices)
    ensures r.Some? ==> forall i :: 0 <= i < |ranges| && Acceptable(ranges[i], choices) ==> ranges[i].q <= r.value.q
    ensures r.Some? ==> exists i :: 0 <= i < |ranges| && ranges[i] == r.value
                                    && forall j :: 0 <= j < i && Acceptable(ranges[j], choices) ==> ranges[j].q < r.value.q
  {
    if |ranges| == 0 then None
    else
      var rest := Preferred(ranges[1..], choices);
      assert forall i :: 1 <= i < |ranges| ==> ranges[i] == ranges[1..][i - 1];
      if Acceptable(ranges[0], choices) && (rest.None? || rest.value.q <= ranges[0].q) then Some(ranges[0])
      else
        assert rest.Some? ==> exists i :: 1 <= i < |ranges| && ranges[i] == rest.value
                                          && forall j :: 1 <= j < i && Acceptable(ranges[j], choices) ==> ranges[j].q < rest.value.q;
        rest
  }

  /** In an ascending list the first acceptable range has the lowest quality of all acceptable ones. */
  lemma FirstAcceptableIsLowest(ranges: seq<MediaRange>, choices: seq<string>)
    requires SortedByQ(ranges)
    ensures var first := FirstAcceptable(ranges, choices);
            first.Some? ==> first.value in ranges
                            && forall i :: 0 <= i < |ranges| && Acceptable(ranges[i], choices) ==> first.value.q <= ranges[i].q
  {
    var first := FirstAcceptable(ranges, choices);
    if first.Some? {
      var k :| FirstAcceptableAt(ranges, choices, k) && ranges[k] == first.value;
      forall i | 0 <= i < |ranges| && Acceptable(ranges[i], choices) ensures first.value.q <= ranges[i].q {
        assert k <= i;
      }
    }
  }

  function MediaTypeOf(m: Option<MediaRange>): Option<string> {
    if m.Some? then Some(m.value.mediaType) else None
  }

  /** No range is acceptable. */
  predicate NoneAcceptable(ranges: seq<MediaRange>, choices: seq<string>) {
    forall i :: 0 <= i < |ranges| ==> !Acceptable(ranges[i], choices)
  }

  /** `m` is an acceptable range of the lowest quality among the acceptable ones. */
  predicate LowestAcceptable(m: MediaRange, ranges: seq<MediaRange>, choices: seq<string>) {
    && m in ranges && Acceptable(m, choices)
    && forall i :: 0 <= i < |ranges| && Acceptable(ranges[i], choices) ==> m.q <= ranges[i].q
  }

  /** `m` is an acceptable range of the highest quality among the acceptable ones. */
  predicate HighestAcceptable(m: MediaRange, ranges: seq<MediaRange>, choices: seq<string>) {
    && m in ranges && Acceptable(m, choices)
    && forall i :: 0 <= i < |ranges| && Acceptable(ranges[i], choices) ==> ranges[i].q <= m.q
  }

  /** Range `i` is acceptable and no earlier range is. */
  predicate FirstAcceptableAt(ranges: seq<MediaRange>, choices: seq<string>, i: int) {
    && 0 <= i < |ranges| && Acceptable(ranges[i], choices)
    && forall j :: 0 <= j < i ==> !Acceptable(ranges[j], choices)
  }

  /** Range `i` is acceptable, of the highest quality, and every earlier acceptable range has a lower one. */
  predicate PreferredAt(ranges: seq<MediaRange>, choices: seq<string>, i: int) {
    && 0 <= i < |ranges| && HighestAcceptable(ranges[i], ranges, choices)
    && forall j :: 0 <= j < i && Acceptable(ranges[j], choices) ==> ranges[j].q < ranges[i].q
  }

  /** The loop of `get_accepted_mimetype` over the ascending list: the first acceptable type. */
  function FirstChoice(ranges: seq<MediaRange>, choices: seq<string>): (r: Option<string>)
    requires SortedByQ(ranges)
    ensures r.None? <==> NoneAcceptable(ranges, choices)
    ensures r.Some? ==> exists m :: LowestAcceptable(m, ranges, choices) && m.mediaType == r.value
    ensures r.Some? ==> exists i :: FirstAcceptableAt(ranges, choices, i) && ranges[i].mediaType == r.value
  {
    var first := FirstAcceptable(ranges, choices);
    FirstAcceptableIsLowest(ranges, choices);
    if first.Some? then
      assert LowestAcceptable(first.value, ranges, choices);
      Some(first.value.mediaType)
    else None
  }

  /** The preferred type: the first acceptable range of highest quality. */
  function BestChoice(ranges: seq<MediaRange>, choices: seq<string>): (r: Option<string>)
    ensures r.None? <==> NoneAcceptable(ranges, choices)
    ensures r.Some? ==> exists m :: HighestAcceptable(m, ranges, choices) && m.mediaType == r.value
    ensures r.Some? ==> exists i :: PreferredAt(ranges, choices, i) && ranges[i].mediaType == r.value
  {
    var best := Preferred(ranges, choices);
    if best.Some? then
      assert HighestAcceptable(best.value, ranges, choices);
      assert exists i :: PreferredAt(ranges, choices, i) && ranges[i] == best.value;
      Some(best.value.mediaType)
    else None
  }

  /**
   * `get_accepted_mimetype` as the code reads: the first acceptable range of
   * the ascending list, which is one of the LOWEST quality among the
   * acceptable ranges.
   */
  function GetAcceptedMimetypeAsWritten(accept: string, choices: seq<string>, toFloat: string -> Option<real>)
    : (r: Result<Option<string>, string>)
    ensures r.Ok? <==> ParseAcceptHeader(accept, toFloat).Ok?
    ensures r.Ok? ==>
              var ranges := ParseAcceptHeader(accept, toFloat).value;
              && (r.value.None? <==> NoneAcceptable(ranges, choices))
              && (r.value.Some? ==> exists m :: LowestAcceptable(m, ranges, choices) && m.mediaType == r.value.value)
              && (r.value.Some? ==> exists i :: FirstAcceptableAt(ranges, choices, i) && ranges[i].mediaType == r.value.value)
  {
    match ParseAcceptHeader(accept, toFloat)
    case Err(e) => Err(e)
    case Ok(ranges) => Ok(FirstChoice(ranges, choices))
  }

  /**
   * `get_accepted_mimetype` as its documentation promises: the preferred
   * acceptable mimetype, one of the HIGHEST quality, the earliest in the
   * header among equals.
   */
  function GetAcceptedMimetype(accept: string, choices: seq<string>, toFloat: string -> Option<real>)
    : (r: Result<Option<string>, string>)
    ensures r.Ok? <==> ParseAcceptHeader(accept, toFloat).Ok?
    ensures r.Ok? ==>
              var ranges := ParseAcceptHeader(accept, toFloat).value;
              && (r.value.None? <==> NoneAcceptable(ranges, choices))
              && (r.value.Some? ==> exists m :: HighestAcceptable(m, ranges, choices) && m.mediaType == r.value.value)
              && (r.value.Some? ==> exists i :: PreferredAt(ranges, choices, i) && ranges[i].mediaType == r.value.value)
  {
    match ParseAcceptHeader(accept, toFloat)
    case Err(e) => Err(e)
    case Ok(ranges) => Ok(BestChoice(ranges, choices))
  }

  /**
   * A header that rates `text/html` at 0.1 and `application/json` at the
   * default 1.0: the code as written answers the least wanted type, the
   * corrected selection the most wanted one.
   */
  lemma LeastWantedTypeChosen()
    ensures var html := MediaRange("text/html", map[], 0.1);
            var json := MediaRange("application/json", map[], 1.0);
            && SortByQ([html, json]) == [html, json]
            && FirstAcceptable(SortByQ([html, json]), []) == Some(html)
            && Preferred(SortByQ([html, json]), []) == Some(json)
  {
    var html := MediaRange("text/html", map[], 0.1);
    var json := MediaRange("application/json", map[], 1.0);
    assert SortByQ([html]) == [html];
    assert [html, json][..1] == [html];
    assert [html, json][1..] == [json];
  }
}
