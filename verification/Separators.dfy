/** Strings of the form `uri?key=value&key=value`: taking them apart and putting them together. */
module Separators {

  // ---------------------------------------------------------------- taking a string apart

  /** The first position of `c`, or the length. */
  function First(s: string, c: char): (i: nat)
    ensures i <= |s| && (i < |s| ==> s[i] == c) && forall k :: 0 <= k < i ==> s[k] != c
  {
    if s == "" then 0
    else
      var n := |s| - 1;
      var i := First(s[..n], c);
      if i < n then i else if s[n] == c then n else n + 1
  }

  /** What is before the first `c`, and what is behind it. */
  function CutAt(s: string, c: char): (string, string) {
    var i := First(s, c);
    if i == |s| then (s, "") else (s[..i], s[i + 1..])
  }

  /** The last piece gets one more character. */
  function Extended(pieces: seq<string>, x: char): (r: seq<string>)
    requires pieces != []
    ensures |r| == |pieces|
  {
    pieces[..|pieces| - 1] + [pieces[|pieces| - 1] + [x]]
  }

  /** The pieces between the occurrences of `c`. */
  function Pieces(s: string, c: char): (r: seq<string>)
    ensures r != []
  {
    if s == "" then [""]
    else
      var n := |s| - 1;
      var r := Pieces(s[..n], c);
      if s[n] == c then r + [""] else Extended(r, s[n])
  }

  /** A URI and key/value pairs. */
  datatype Parts = Parts(uri: string, pairs: seq<(string, string)>)

  function Pairs(pieces: seq<string>): (r: seq<(string, string)>)
    ensures |r| == |pieces| && forall i :: 0 <= i < |r| ==> r[i] == CutAt(pieces[i], '=')
  {
    seq(|pieces|, i requires 0 <= i < |pieces| => CutAt(pieces[i], '='))
  }

  /** Cut at the first '?', the rest at each '&', each piece at its first '='. */
  function Read(s: string): Parts {
    var i := First(s, '?');
    if i == |s| then Parts(s, []) else Parts(s[..i], Pairs(Pieces(s[i + 1..], '&')))
  }

  lemma {:induction false} FirstBehind(a: string, c: char, b: string)
    requires c !in a
    ensures First(a + [c] + b, c) == |a|
  {
    var s := a + [c] + b;
    assert s[|a|] == c && forall k :: 0 <= k < |a| ==> s[k] == a[k];
  }

  /** An earlier separator is found first. */
  lemma {:induction false} FirstWithin(a: string, c: char, b: string)
    requires c in a
    ensures First(a + b, c) < |a|
  {
    var j :| 0 <= j < |a| && a[j] == c;
    assert (a + b)[j] == c;
  }

  lemma {:induction false} PiecesNone(s: string, c: char)
    ensures |Pieces(s, c)| == 1 <==> c !in s
    ensures c !in s ==> Pieces(s, c) == [s]
  {
    if s != "" {
      var n := |s| - 1;
      PiecesNone(s[..n], c);
      assert s == s[..n] + [s[n]];
    }
  }

  lemma {:induction false} PiecesLast(s: string, x: char, c: char)
    ensures Pieces(s + [x], c) == if x == c then Pieces(s, c) + [""] else Extended(Pieces(s, c), x)
  {
    assert (s + [x])[..|s|] == s;
  }

  lemma ExtendedBehind(a: seq<string>, b: seq<string>, x: char)
    requires b != []
    ensures Extended(a + b, x) == a + Extended(b, x)
  {
  }

  lemma {:induction false} PiecesNext(a: string, c: char, b: string, x: char)
    requires Pieces(a + [c] + b, c) == Pieces(a, c) + Pieces(b, c)
    ensures Pieces(a + [c] + b + [x], c) == Pieces(a, c) + Pieces(b + [x], c)
  {
    PiecesLast(a + [c] + b, x, c);
    PiecesLast(b, x, c);
    ExtendedBehind(Pieces(a, c), Pieces(b, c), x);
  }

  lemma {:induction false} PiecesAround(a: string, c: char, b: string)
    ensures Pieces(a + [c] + b, c) == Pieces(a, c) + Pieces(b, c)
  {
    if b == "" {
      assert a + [c] + b == a + [c];
      PiecesLast(a, c, c);
    } else {
      var n := |b| - 1;
      PiecesAround(a, c, b[..n]);
      PiecesNext(a, c, b[..n], b[n]);
      assert b == b[..n] + [b[n]] && a + [c] + b == a + [c] + b[..n] + [b[n]];
    }
  }

  // ---------------------------------------------------------------- putting a string together

  /** `items` with `c` between them. */
  function JoinAt(items: seq<string>, c: char): string
    requires items != []
  {
    if |items| == 1 then items[0] else JoinAt(items[..|items| - 1], c) + [c] + items[|items| - 1]
  }

  /** No item holds `c`. */
  predicate ClearOf(items: seq<string>, c: char) {
    forall i :: 0 <= i < |items| ==> c !in items[i]
  }

  /** `pieces` are `items`, and are more than these if and only if some item holds `c`. */
  ghost predicate Apart(pieces: seq<string>, items: seq<string>, c: char) {
    |pieces| >= |items| && (|pieces| == |items| <==> ClearOf(items, c)) && (ClearOf(items, c) ==> pieces == items)
  }

  lemma {:induction false} ApartNext(pieces: seq<string>, items: seq<string>, c: char, item: string)
    requires Apart(pieces, items, c)
    ensures Apart(pieces + Pieces(item, c), items + [item], c)
  {
    PiecesNone(item, c);
    var all := items + [item];
    assert all[|items|] == item && forall i :: 0 <= i < |items| ==> all[i] == items[i];
  }

  /** Taking apart undoes putting together exactly when no item holds the separator. */
  lemma {:induction false} PiecesOfJoin(items: seq<string>, c: char)
    requires items != []
    ensures Apart(Pieces(JoinAt(items, c), c), items, c)
  {
    var n := |items| - 1;
    if n == 0 {
      PiecesNone(items[0], c);
    } else {
      PiecesOfJoin(items[..n], c);
      PiecesAround(JoinAt(items[..n], c), c, items[n]);
      ApartNext(Pieces(JoinAt(items[..n], c), c), items[..n], c, items[n]);
      assert items == items[..n] + [items[n]];
    }
  }

  // ---------------------------------------------------------------- URI and pairs

  function Item(pair: (string, string)): string {
    pair.0 + "=" + pair.1
  }

  function Items(pairs: seq<(string, string)>): (r: seq<string>)
    ensures |r| == |pairs| && forall i :: 0 <= i < |r| ==> r[i] == Item(pairs[i])
  {
    seq(|pairs|, i requires 0 <= i < |pairs| => Item(pairs[i]))
  }

  lemma {:induction false} JoinNext(pairs: seq<(string, string)>, pair: (string, string))
    requires pairs != []
    ensures JoinAt(Items(pairs + [pair]), '&') == JoinAt(Items(pairs), '&') + ['&'] + Item(pair)
  {
    assert Items(pairs + [pair])[..|pairs|] == Items(pairs);
  }

  /** `uri`, or `uri?k=v&k=v`. */
  function Spelled(parts: Parts): string {
    if parts.pairs == [] then parts.uri else parts.uri + "?" + JoinAt(Items(parts.pairs), '&')
  }

  /** No part holds a separator by which it would be taken apart: the URI no '?', a key no '&' and no
      '=', a value no '&'. */
  predicate Separable(parts: Parts) {
    '?' !in parts.uri &&
    forall i :: 0 <= i < |parts.pairs| ==>
      '&' !in parts.pairs[i].0 && '=' !in parts.pairs[i].0 && '&' !in parts.pairs[i].1
  }

  lemma {:induction false} ItemCut(pair: (string, string))
    ensures CutAt(Item(pair), '=') == pair <==> '=' !in pair.0
  {
    assert Item(pair) == pair.0 + (['='] + pair.1) == pair.0 + ['='] + pair.1;
    if '=' in pair.0 {
      FirstWithin(pair.0, '=', ['='] + pair.1);
    } else {
      FirstBehind(pair.0, '=', pair.1);
    }
  }

  lemma ItemClear(pair: (string, string))
    ensures '&' !in Item(pair) <==> '&' !in pair.0 && '&' !in pair.1
  {
  }

  lemma {:induction false} PairsRead(pairs: seq<(string, string)>)
    requires pairs != []
    ensures Pairs(Pieces(JoinAt(Items(pairs), '&'), '&')) == pairs
       <==> forall i :: 0 <= i < |pairs| ==> '&' !in pairs[i].0 && '=' !in pairs[i].0 && '&' !in pairs[i].1
  {
    var items := Items(pairs);
    PiecesOfJoin(items, '&');
    forall i | 0 <= i < |pairs|
      ensures '&' !in items[i] <==> '&' !in pairs[i].0 && '&' !in pairs[i].1
      ensures CutAt(items[i], '=') == pairs[i] <==> '=' !in pairs[i].0
    {
      ItemClear(pairs[i]);
      ItemCut(pairs[i]);
    }
  }

  lemma {:induction false} SpelledRead(parts: Parts)
    ensures Read(Spelled(parts)) == parts <==> Separable(parts)
  {
    var uri, pairs := parts.uri, parts.pairs;
    var rest := if pairs == [] then "" else "?" + JoinAt(Items(pairs), '&');
    assert Spelled(parts) == uri + rest;
    if '?' in uri {
      FirstWithin(uri, '?', rest);
    } else if pairs != [] {
      FirstBehind(uri, '?', JoinAt(Items(pairs), '&'));
      assert uri + ['?'] + JoinAt(Items(pairs), '&') == uri + rest;
      PairsRead(pairs);
    }
  }
}
