/**
 * String helpers the renderers share: `Array.prototype.join`, its inverse
 * `String.prototype.split` on a single character, and ASCII case folding.
 */
module Strings {

  /** `xs.join(sep)`: the elements in order with `sep` between neighbours. */
  function Join(xs: seq<string>, sep: string): string
  {
    if |xs| == 0 then ""
    else if |xs| == 1 then xs[0]
    else xs[0] + sep + Join(xs[1..], sep)
  }

  /** Appending in two steps is appending the two parts joined. */
  lemma SeqAssoc<T>(a: seq<T>, b: seq<T>, c: seq<T>)
    ensures (a + b) + c == a + (b + c)
  {
  }

  /** Appending keeps what was there in front and adds the new part behind it. */
  lemma AppendParts<T>(a: seq<T>, b: seq<T>)
    ensures (a + b)[..|a|] == a && (a + b)[|a|..] == b
  {
  }

  /** Appending keeps every prefix of the front part. */
  lemma PrefixKept<T>(a: seq<T>, b: seq<T>, n: nat)
    requires n <= |a|
    ensures (a + b)[..n] == a[..n]
  {
  }

  lemma JoinFour(a: string, b: string, c: string, d: string, sep: string)
    ensures Join([a, b, c, d], sep) == a + sep + b + sep + c + sep + d
  {
    assert [c, d][1..] == [d];
    assert Join([c, d], sep) == c + sep + d;
    assert [b, c, d][1..] == [c, d];
    assert Join([b, c, d], sep) == b + sep + (c + sep + d);
    assert [a, b, c, d][1..] == [b, c, d];
    assert Join([a, b, c, d], sep) == a + sep + (b + sep + (c + sep + d));
  }

  /** Appending keeps every suffix of the back part. */
  lemma SuffixKept<T>(a: seq<T>, b: seq<T>, n: nat)
    requires n <= |b|
    ensures (a + b)[|a + b| - n..] == b[|b| - n..]
  {
    AppendParts(a, b);
  }

  /** A join opens with its first element, followed by a separator when more elements come. */
  lemma JoinStart(xs: seq<string>, sep: string)
    requires |xs| > 0
    ensures |Join(xs, sep)| >= |xs[0]| && Join(xs, sep)[..|xs[0]|] == xs[0]
    ensures |xs| == 1 ==> Join(xs, sep) == xs[0]
    ensures |xs| > 1 ==> |Join(xs, sep)| >= |xs[0]| + |sep| && Join(xs, sep)[|xs[0]|..|xs[0]| + |sep|] == sep
  {
    if |xs| > 1 {
      var rest := Join(xs[1..], sep);
      assert Join(xs, sep) == xs[0] + (sep + rest);
      AppendParts(xs[0], sep + rest);
      AppendParts(sep, rest);
    }
  }

  /** Joining one more element adds a separator and the element at the end. */
  lemma {:induction false} JoinSnoc(xs: seq<string>, x: string, sep: string)
    requires |xs| > 0
    ensures Join(xs + [x], sep) == Join(xs, sep) + sep + x
  {
    if |xs| == 1 {
      assert (xs + [x])[1..] == [x];
    } else {
      assert (xs + [x])[1..] == xs[1..] + [x];
      JoinSnoc(xs[1..], x, sep);
    }
  }

  /** `xs.join("")`. */
  function Concat(xs: seq<string>): string
  {
    if |xs| == 0 then "" else Concat(xs[..|xs| - 1]) + xs[|xs| - 1]
  }

  /** `s.split(c)` for a one-character separator: never empty, "" splits to [""]. */
  function Split(s: string, c: char): (r: seq<string>)
    ensures |r| > 0
  {
    if s == [] then [""]
    else if s[0] == c then [""] + Split(s[1..], c)
    else
      var rest := Split(s[1..], c);
      [[s[0]] + rest[0]] + rest[1..]
  }

  lemma {:induction false} SplitAfterPiece(x: string, c: char, rest: string)
    requires c !in x
    ensures Split(x + [c] + rest, c) == [x] + Split(rest, c)
  {
    if x == [] {
      assert x + [c] + rest == [c] + rest;
      assert ([c] + rest)[1..] == rest;
    } else {
      assert (x + [c] + rest)[0] == x[0];
      assert (x + [c] + rest)[1..] == x[1..] + [c] + rest;
      SplitAfterPiece(x[1..], c, rest);
      assert [x[0]] + x[1..] == x;
    }
  }

  lemma {:induction false} SplitWithout(x: string, c: char)
    requires c !in x
    ensures Split(x, c) == [x]
  {
    if x != [] {
      SplitWithout(x[1..], c);
      assert [x[0]] + x[1..] == x;
    }
  }

  /** Splitting a join on a separator that no element contains gives the elements back. */
  lemma {:induction false} SplitJoin(xs: seq<string>, c: char)
    requires |xs| > 0
    requires forall i :: 0 <= i < |xs| ==> c !in xs[i]
    ensures Split(Join(xs, [c]), c) == xs
  {
    if |xs| == 1 {
      SplitWithout(xs[0], c);
    } else {
      SplitJoin(xs[1..], c);
      SplitAfterPiece(xs[0], c, Join(xs[1..], [c]));
      assert [xs[0]] + xs[1..] == xs;
    }
  }

  /** Every character of a join comes from an element or from a separator. */
  lemma {:induction false} JoinChars(xs: seq<string>, sep: string, ch: char)
    requires ch in Join(xs, sep)
    ensures (exists i :: 0 <= i < |xs| && ch in xs[i]) || ch in sep
  {
    if |xs| > 1 {
      if ch !in xs[0] && ch !in sep {
        JoinChars(xs[1..], sep, ch);
        var i :| 0 <= i < |xs[1..]| && ch in xs[1..][i];
        assert ch in xs[i + 1];
      }
    }
  }

  lemma {:induction false} ConcatAppend(a: seq<string>, b: seq<string>)
    ensures Concat(a + b) == Concat(a) + Concat(b)
  {
    if b == [] {
      assert a + b == a;
    } else {
      ConcatAppend(a, b[..|b| - 1]);
      assert (a + b)[..|a + b| - 1] == a + b[..|b| - 1];
    }
  }

  /** ASCII lower-casing of one character. */
  function LowerChar(ch: char): char
  {
    if 'A' <= ch <= 'Z' then (ch as int - 'A' as int + 'a' as int) as char else ch
  }

  function Lower(s: string): (r: string)
    ensures |r| == |s|
    ensures forall i :: 0 <= i < |s| ==> r[i] == LowerChar(s[i])
  {
    if s == [] then [] else [LowerChar(s[0])] + Lower(s[1..])
  }
}
