/**
 * `url_path_join`: joins URL path components with single slashes, keeping a
 * leading slash of the first component and a trailing slash of the last.
 */
module UrlPath {
  import opened Common
  import opened Strings

  /** No slash at either end. */
  predicate SlashFreeEnds(s: string) {
    |s| == 0 || (s[0] != '/' && s[|s| - 1] != '/')
  }

  /** Every character is a slash. */
  predicate AllSlashes(s: string) {
    forall k :: 0 <= k < |s| ==> s[k] == '/'
  }

  /** Stripping the slashes off both ends leaves a string with none at either end. */
  lemma StripCharEnds(s: string)
    ensures SlashFreeEnds(StripChar(s, '/'))
  {
    var l := StripLeftBy(s, Is('/'));
    var r := StripRightBy(l, Is('/'));
    if |r| > 0 {
      assert r[0] == l[0];
    }
  }

  /** Slashes around a string without end slashes are exactly what `strip("/")` removes. */
  lemma StripAround(pre: string, core: string, suf: string)
    requires AllSlashes(pre) && AllSlashes(suf) && SlashFreeEnds(core)
    ensures StripChar(pre + core + suf, '/') == core
  {
    var s := pre + core + suf;
    if |core| > 0 {
      assert s == pre + (core + suf);
      StripLeftPrefix(pre, core + suf, Is('/'));
      StripRightSuffix(core, suf, Is('/'));
    } else {
      assert s == (pre + suf) + "";
      StripLeftPrefix(pre + suf, "", Is('/'));
    }
  }

  /** The components left after stripping slashes and dropping the empty ones. */
  function Clean(pieces: seq<string>): (r: seq<string>)
    ensures |r| <= |pieces|
    ensures forall k :: 0 <= k < |r| ==> |r[k]| > 0 && SlashFreeEnds(r[k])
  {
    if |pieces| == 0 then []
    else
      var s := StripChar(pieces[0], '/');
      StripCharEnds(pieces[0]);
      if s == [] then Clean(pieces[1..]) else [s] + Clean(pieces[1..])
  }

  /** Joining non-empty pieces without end slashes gives a string without end slashes. */
  lemma {:induction false} JoinEnds(parts: seq<string>)
    requires forall k :: 0 <= k < |parts| ==> |parts[k]| > 0 && SlashFreeEnds(parts[k])
    ensures SlashFreeEnds(Join(parts, '/'))
    ensures |parts| > 0 ==> |Join(parts, '/')| > 0
    decreases |parts|
  {
    if |parts| > 1 {
      JoinEnds(parts[1..]);
      var t := Join(parts[1..], '/');
      var j := parts[0] + ['/'] + t;
      assert Join(parts, '/') == j;
      assert j[0] == parts[0][0];
      assert j[|j| - 1] == t[|t| - 1];
    }
  }

  /** The joined components, before the end slashes are put back. */
  function Core(pieces: seq<string>): (r: string)
    ensures SlashFreeEnds(r)
  {
    JoinEnds(Clean(pieces));
    Join(Clean(pieces), '/')
  }

  /** Puts back the end slashes asked for around `core`, turning a lone "//" into "/". */
  function Wrap(initial: bool, core: string, final: bool): (r: string)
    requires SlashFreeEnds(core)
    ensures StripChar(r, '/') == core
    ensures !StartsWith(r, "//") && !EndsWith(r, "//")
    ensures initial ==> StartsWith(r, "/")
    ensures final ==> EndsWith(r, "/")
    ensures |core| > 0 ==> (StartsWith(r, "/") <==> initial) && (EndsWith(r, "/") <==> final)
    ensures |core| == 0 ==> r == "" || r == "/"
    ensures |core| == 0 ==> (r == "/" <==> initial || final)
  {
    var pre := if initial then "/" else "";
    var suf := if final then "/" else "";
    if |core| == 0 then
      WrapEmpty(pre, suf);
      if pre + suf == "//" then "/" else pre + suf
    else
      WrapNonEmpty(pre, core, suf);
      StripAround(pre, core, suf);
      pre + core + suf
  }

  lemma WrapEmpty(pre: string, suf: string)
    requires pre in {"", "/"} && suf in {"", "/"}
    ensures var r := if pre + suf == "//" then "/" else pre + suf;
            && StripChar(r, '/') == ""
            && !StartsWith(r, "//") && !EndsWith(r, "//")
            && (pre == "/" ==> StartsWith(r, "/"))
            && (suf == "/" ==> EndsWith(r, "/"))
            && (r == "" || r == "/")
            && (r == "/" <==> pre == "/" || suf == "/")
  {
    var r := if pre + suf == "//" then "/" else pre + suf;
    assert r == "" || r == "/";
    StripAround(r, "", "");
    assert r + "" + "" == r;
  }

  lemma WrapNonEmpty(pre: string, core: string, suf: string)
    requires pre in {"", "/"} && suf in {"", "/"}
    requires |core| > 0 && SlashFreeEnds(core)
    ensures var r := pre + core + suf;
            && !StartsWith(r, "//") && !EndsWith(r, "//")
            && (StartsWith(r, "/") <==> pre == "/")
            && (EndsWith(r, "/") <==> suf == "/")
  {
    var r := pre + core + suf;
    assert r[|pre|] == core[0];
    assert r[|pre| + |core| - 1] == core[|core| - 1];
    assert r[0] == if pre == "/" then '/' else core[0];
    assert r[|r| - 1] == if suf == "/" then '/' else core[|core| - 1];
    if |r| >= 2 {
      assert r[..2] == [r[0], r[1]];
      assert r[|r| - 2..] == [r[|r| - 2], r[|r| - 1]];
    }
  }

  /**
   * `url_path_join(*pieces)`; `None` stands for the IndexError raised when no
   * component is given. The result is the joined components with the leading
   * slash of the first and the trailing slash of the last, never doubled.
   */
  function UrlPathJoin(pieces: seq<string>): (r: Option<string>)
    ensures r.None? <==> |pieces| == 0
    ensures r.Some? ==> StripChar(r.value, '/') == Core(pieces)
    ensures r.Some? ==> !StartsWith(r.value, "//") && !EndsWith(r.value, "//")
    ensures r.Some? && StartsWith(pieces[0], "/") ==> StartsWith(r.value, "/")
    ensures r.Some? && EndsWith(pieces[|pieces| - 1], "/") ==> EndsWith(r.value, "/")
    ensures r.Some? && |Core(pieces)| > 0 ==>
              && (StartsWith(r.value, "/") <==> StartsWith(pieces[0], "/"))
              && (EndsWith(r.value, "/") <==> EndsWith(pieces[|pieces| - 1], "/"))
    ensures r.Some? && |Core(pieces)| == 0 ==> r.value == "" || r.value == "/"
    ensures r.Some? && |Core(pieces)| == 0 ==>
              (r.value == "/" <==> StartsWith(pieces[0], "/") || EndsWith(pieces[|pieces| - 1], "/"))
  {
    if |pieces| == 0 then None
    else Some(Wrap(StartsWith(pieces[0], "/"), Core(pieces), EndsWith(pieces[|pieces| - 1], "/")))
  }

  /** Components that are non-empty and carry no end slashes are joined with single slashes and nothing else. */
  lemma {:induction false} CleanPiecesJoinPlainly(pieces: seq<string>)
    requires |pieces| > 0
    requires forall k :: 0 <= k < |pieces| ==> |pieces[k]| > 0 && SlashFreeEnds(pieces[k])
    ensures UrlPathJoin(pieces) == Some(Join(pieces, '/'))
  {
    CleanKeeps(pieces);
    JoinEnds(pieces);
    var core := Join(pieces, '/');
    assert Core(pieces) == core;
    assert !StartsWith(pieces[0], "/") by {
      assert pieces[0][0] != '/';
    }
    assert !EndsWith(pieces[|pieces| - 1], "/") by {
      var last := pieces[|pieces| - 1];
      assert last[|last| - 1] != '/';
    }
    assert Wrap(false, core, false) == "" + core + "";
    assert "" + core + "" == core;
  }

  lemma {:induction false} CleanKeeps(pieces: seq<string>)
    requires forall k :: 0 <= k < |pieces| ==> |pieces[k]| > 0 && SlashFreeEnds(pieces[k])
    ensures Clean(pieces) == pieces
    decreases |pieces|
  {
    if |pieces| > 0 {
      var rest := pieces[1..];
      CleanCons(pieces);
      assert forall k :: 0 <= k < |rest| ==> rest[k] == pieces[k + 1];
      CleanKeeps(rest);
      HeadTail(pieces);
    }
  }

  lemma HeadTail(s: seq<string>)
    requires |s| > 0
    ensures s == [s[0]] + s[1..]
  {
  }

  /** A first component that is already clean is kept as it is. */
  lemma CleanCons(pieces: seq<string>)
    requires |pieces| > 0 && |pieces[0]| > 0 && SlashFreeEnds(pieces[0])
    ensures Clean(pieces) == [pieces[0]] + Clean(pieces[1..])
  {
    StripKeeps(pieces[0]);
  }

  lemma StripKeeps(p: string)
    requires SlashFreeEnds(p)
    ensures StripChar(p, '/') == p
  {
    StripAround("", p, "");
    assert "" + p + "" == p;
  }

  /** Joining an already joined path on its own gives it back. */
  lemma UrlPathJoinIdempotent(pieces: seq<string>)
    requires |pieces| > 0
    ensures UrlPathJoin([UrlPathJoin(pieces).value]) == UrlPathJoin(pieces)
  {
    var r := UrlPathJoin(pieces).value;
    var core := Core(pieces);
    assert Clean([r]) == if core == [] then [] else [core];
    assert Core([r]) == core;
  }
}
