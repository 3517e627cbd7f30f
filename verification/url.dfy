/**
  The address-bar state the pages exchange: a pathname and a query list of
  name/value pairs, as `URLSearchParams` keeps it. Reading (`get`), rewriting
  (`set`), and the text form of a link with its parser (the
  application/x-www-form-urlencoded parser of the WHATWG URL standard, less
  percent-decoding) are modelled here.
 */
module Url {
  import opened Common
  import opened Strings

  datatype Param = Param(name: string, value: string)

  /** The parsed form of a link: where it goes and which query pairs it carries. */
  datatype Location = Location(pathname: string, params: seq<Param>)

  function NameIs(name: string): Param -> bool {
    (p: Param) => p.name == name
  }

  function NameIsNot(name: string): Param -> bool {
    (p: Param) => p.name != name
  }

  predicate HasName(ps: seq<Param>, name: string) {
    exists i :: 0 <= i < |ps| && ps[i].name == name
  }

  /** `URLSearchParams.get`: the value of the first pair called `name`, if any. */
  function Get(ps: seq<Param>, name: string): (r: Option<string>)
    ensures r.None? <==> !HasName(ps, name)
    ensures r.Some? ==> exists i :: 0 <= i < |ps| && ps[i] == Param(name, r.value) && !HasName(ps[..i], name)
  {
    if ps == [] then None
    else if ps[0].name == name then
      assert ps[..0] == [];
      Some(ps[0].value)
    else
      var r := Get(ps[1..], name);
      assert forall i :: 1 <= i < |ps| ==> ps[i] == ps[1..][i - 1];
      assert forall i :: 0 <= i < |ps[1..]| ==> ps[..i + 1] == [ps[0]] + ps[1..][..i];
      r
  }

  /**
    `URLSearchParams.set`: the first pair called `name` takes the new value in
    place and every later pair of that name is deleted; with no such pair the
    new pair is appended.
   */
  function Set(ps: seq<Param>, name: string, value: string): (r: seq<Param>)
    ensures Get(r, name) == Some(value)
    ensures Count(r, NameIs(name)) == 1
    ensures Filter(r, NameIsNot(name)) == Filter(ps, NameIsNot(name))
  {
    if ps == [] then [Param(name, value)]
    else if ps[0].name == name then
      var rest := Filter(ps[1..], NameIsNot(name));
      NoneNamed(rest, name);
      FilterKeepsAll(rest, NameIsNot(name));
      [Param(name, value)] + rest
    else
      var r := [ps[0]] + Set(ps[1..], name, value);
      assert r[1..] == Set(ps[1..], name, value);
      r
  }

  /** Putting back the head of `ps` in front of its tail with `x` appended. */
  lemma ConsAppend<T>(ps: seq<T>, st: seq<T>, x: seq<T>)
    requires ps != [] && st == ps[1..] + x
    ensures [ps[0]] + st == ps + x
  {
  }

  /** The same, with `mid + rest` in place of `x` and the head of a prefix. */
  lemma ConsSplit<T>(ps: seq<T>, i: nat, st: seq<T>, mid: seq<T>, rest: seq<T>)
    requires 0 < i <= |ps| && st == ps[1..][..i - 1] + mid + rest
    ensures [ps[0]] + st == ps[..i] + mid + rest
  {
    assert ps[..i] == [ps[0]] + ps[1..][..i - 1];
  }

  /** A leading pair with another name is kept in front. */
  lemma SetPastOther(ps: seq<Param>, name: string, value: string)
    requires ps != [] && ps[0].name != name
    ensures Set(ps, name, value) == [ps[0]] + Set(ps[1..], name, value)
  {
  }

  /** With no pair called `name`, `set` appends one. */
  lemma {:induction false} SetAppends(ps: seq<Param>, name: string, value: string)
    requires !HasName(ps, name)
    ensures Set(ps, name, value) == ps + [Param(name, value)]
  {
    if ps == [] {
      assert ps + [Param(name, value)] == [Param(name, value)];
    } else {
      assert ps[0].name != name;
      var tail := ps[1..];
      assert !HasName(tail, name) by {
        assert forall i :: 0 <= i < |tail| ==> tail[i] == ps[i + 1];
      }
      SetAppends(tail, name, value);
      SetPastOther(ps, name, value);
      ConsAppend(ps, Set(tail, name, value), [Param(name, value)]);
    }
  }

  /**
    With a pair called `name`, `set` overwrites the first one in place and
    drops the later ones.
   */
  lemma {:induction false} SetOverwritesFirst(ps: seq<Param>, name: string, value: string, i: nat)
    requires i < |ps| && ps[i].name == name && !HasName(ps[..i], name)
    ensures Set(ps, name, value) == ps[..i] + [Param(name, value)] + Filter(ps[i + 1..], NameIsNot(name))
  {
    if i == 0 {
      assert ps[..0] == [] && ps[0 + 1..] == ps[1..];
    } else {
      var tail := ps[1..];
      var rest := Filter(ps[i + 1..], NameIsNot(name));
      assert ps[0].name != name by { assert ps[..i][0] == ps[0]; }
      assert tail[i - 1] == ps[i];
      assert !HasName(tail[..i - 1], name) by {
        var pre := tail[..i - 1];
        forall j | 0 <= j < |pre| ensures pre[j].name != name {
          assert pre[j] == ps[..i][j + 1];
        }
      }
      SetOverwritesFirst(tail, name, value, i - 1);
      assert Filter(tail[i - 1 + 1..], NameIsNot(name)) == rest by {
        assert tail[i - 1 + 1..] == ps[i + 1..];
      }
      SetPastOther(ps, name, value);
      ConsSplit(ps, i, Set(tail, name, value), [Param(name, value)], rest);
    }
  }

  lemma NoneNamed(ps: seq<Param>, name: string)
    requires forall p :: p in ps ==> p.name != name
    ensures Filter(ps, NameIs(name)) == []
  {
    if ps != [] {
      NoneNamed(ps[1..], name);
    }
  }

  /** Setting a name to the value it already has, when it occurs once, changes nothing. */
  lemma SetCurrentValueIsIdentity(ps: seq<Param>, name: string)
    requires Count(ps, NameIs(name)) == 1
    requires Get(ps, name).Some?
    ensures Set(ps, name, Get(ps, name).value) == ps
  {
    var v := Get(ps, name).value;
    var i :| 0 <= i < |ps| && ps[i] == Param(name, v) && !HasName(ps[..i], name);
    var after := ps[i + 1..];
    SetOverwritesFirst(ps, name, v, i);
    OnlyNamedAt(ps, name, i);
    assert forall p :: p in after ==> NameIsNot(name)(p) by {
      assert forall k :: 0 <= k < |after| ==> after[k].name != name;
    }
    FilterKeepsAll(after, NameIsNot(name));
    SplitAround(ps, i);
  }

  /** A name occurring once, at `i`, occurs nowhere after `i`. */
  lemma OnlyNamedAt(ps: seq<Param>, name: string, i: nat)
    requires Count(ps, NameIs(name)) == 1 && i < |ps| && ps[i].name == name
    ensures !HasName(ps[i + 1..], name)
  {
    var before, after := ps[..i], ps[i + 1..];
    assert ps == before + ([ps[i]] + after);
    FilterConcat(before, [ps[i]] + after, NameIs(name));
    FilterConcat([ps[i]], after, NameIs(name));
    assert Filter([ps[i]], NameIs(name)) == [ps[i]];
    assert Filter(after, NameIs(name)) == [];
    FilterEmpty(after, NameIs(name));
  }

  lemma SplitAround<T>(ps: seq<T>, i: nat)
    requires i < |ps|
    ensures ps[..i] + [ps[i]] + ps[i + 1..] == ps
  {
  }

  /** Deleting the pairs of another name does not change what `get` reads. */
  lemma {:induction false} GetThroughFilter(ps: seq<Param>, other: string, name: string)
    requires name != other
    ensures Get(Filter(ps, NameIsNot(other)), name) == Get(ps, name)
  {
    if ps != [] {
      GetThroughFilter(ps[1..], other, name);
    }
  }

  /** Setting one name leaves the value `get` reads for every other name. */
  lemma SetKeepsOtherNames(ps: seq<Param>, name: string, value: string, other: string)
    requires other != name
    ensures Get(Set(ps, name, value), other) == Get(ps, other)
  {
    GetThroughFilter(Set(ps, name, value), name, other);
    GetThroughFilter(ps, name, other);
  }

  // ---------------------------------------------------------------------------
  // Links as text
  // ---------------------------------------------------------------------------

  /** The text before the first `c`, and the text after it when there is one. */
  function SplitAtFirst(s: string, c: char): (r: (string, Option<string>))
    ensures c !in r.0
    ensures r.1.None? ==> r.0 == s
    ensures r.1.Some? ==> s == r.0 + [c] + r.1.value
  {
    if s == [] then ([], None)
    else if s[0] == c then ([], Some(s[1..]))
    else
      var (before, after) := SplitAtFirst(s[1..], c);
      ([s[0]] + before, after)
  }

  lemma {:induction false} SplitAtFirstOf(a: string, c: char, b: string)
    requires c !in a
    ensures SplitAtFirst(a + [c] + b, c) == (a, Some(b))
  {
    if a == [] {
      assert a + [c] + b == [c] + b;
    } else {
      assert (a + [c] + b)[1..] == a[1..] + [c] + b;
      SplitAtFirstOf(a[1..], c, b);
      assert [a[0]] + a[1..] == a;
    }
  }

  lemma {:induction false} SplitAtFirstAbsent(a: string, c: char)
    requires c !in a
    ensures SplitAtFirst(a, c) == (a, None)
  {
    if a != [] {
      SplitAtFirstAbsent(a[1..], c);
      assert [a[0]] + a[1..] == a;
    }
  }

  /** One `name=value` piece of a query; a piece without `=` has an empty value. */
  function ParsePair(piece: string): Param {
    var (name, value) := SplitAtFirst(piece, '=');
    Param(name, match value case Some(v) => v case None => [])
  }

  /** The pairs of a query string: split on `&`, empty pieces skipped. */
  function ParsePieces(pieces: seq<string>): seq<Param> {
    if pieces == [] then []
    else if pieces[0] == [] then ParsePieces(pieces[1..])
    else [ParsePair(pieces[0])] + ParsePieces(pieces[1..])
  }

  function ParseQuery(query: string): seq<Param> {
    ParsePieces(Split(query, '&'))
  }

  /** Where a link leads: the text before the first `?` and the pairs after it. */
  function ParseHref(href: string): Location {
    var (path, query) := SplitAtFirst(href, '?');
    Location(path, match query case Some(q) => ParseQuery(q) case None => [])
  }

  function PairText(p: Param): string {
    p.name + "=" + p.value
  }

  function PairTexts(ps: seq<Param>): (r: seq<string>)
    ensures |r| == |ps|
  {
    if ps == [] then [] else [PairText(ps[0])] + PairTexts(ps[1..])
  }

  /** The text of a link to `path` carrying `params`. */
  function Href(path: string, params: seq<Param>): string {
    if params == [] then path else path + "?" + Join(PairTexts(params), '&')
  }

  /** A pair whose text survives the round trip through `&` and `=` splitting. */
  predicate PlainParam(p: Param) {
    '&' !in p.name && '=' !in p.name && '&' !in p.value
  }

  lemma {:induction false} ParsePiecesOfPairTexts(ps: seq<Param>)
    requires forall p :: p in ps ==> PlainParam(p)
    ensures ParsePieces(PairTexts(ps)) == ps
  {
    if ps != [] {
      var p := ps[0];
      assert p in ps;
      assert PairText(p) == p.name + ['='] + p.value;
      SplitAtFirstOf(p.name, '=', p.value);
      assert PairTexts(ps)[1..] == PairTexts(ps[1..]);
      ParsePiecesOfPairTexts(ps[1..]);
      assert [ps[0]] + ps[1..] == ps;
    }
  }

  lemma {:induction false} PairTextsPlain(ps: seq<Param>)
    requires forall p :: p in ps ==> PlainParam(p)
    ensures forall k :: 0 <= k < |ps| ==> '&' !in PairTexts(ps)[k]
  {
    if ps != [] {
      PairTextsPlain(ps[1..]);
      assert ps[0] in ps;
      assert PairText(ps[0]) == ps[0].name + ['='] + ps[0].value;
      assert forall k :: 1 <= k < |ps| ==> PairTexts(ps)[k] == PairTexts(ps[1..])[k - 1];
    }
  }

  /** Parsing a link built by `Href` gives back its pathname and its pairs. */
  lemma HrefRoundTrip(path: string, params: seq<Param>)
    requires '?' !in path
    requires forall p :: p in params ==> PlainParam(p)
    ensures ParseHref(Href(path, params)) == Location(path, params)
  {
    if params == [] {
      SplitAtFirstAbsent(path, '?');
    } else {
      var q := Join(PairTexts(params), '&');
      assert Href(path, params) == path + ['?'] + q;
      SplitAtFirstOf(path, '?', q);
      PairTextsPlain(params);
      SplitJoin(PairTexts(params), '&');
      ParsePiecesOfPairTexts(params);
    }
  }
}
