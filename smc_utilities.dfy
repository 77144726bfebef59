/**
 * The whitespace helpers of the state-machine compiler: `addPrefix` and
 * `compressWhiteSpace`, the normaliser every expected-output comparison goes
 * through. `compressWhiteSpace` is three global regular-expression
 * replacements applied in order; each is modelled as a recursive function that
 * scans the string the way the regular-expression engine does.
 */
module SmcUtilities {

  /** `addPrefix(prefix, list)`: `list.map(e => prefix + e)`. */
  function AddPrefix(prefix: string, list: seq<string>): (r: seq<string>)
    ensures |r| == |list|
    ensures forall i :: 0 <= i < |r| ==> |prefix| <= |r[i]| && r[i][..|prefix|] == prefix && r[i][|prefix|..] == list[i]
  {
    seq(|list|, i requires 0 <= i < |list| => prefix + list[i])
  }

  const Blanks: set<char> := {' ', '\t'}
  const Whitespace: set<char> := {' ', '\t', '\n'}

  /** The longest suffix of `s` that does not start with a character of `cs`. */
  function DropLeading(s: string, cs: set<char>): (t: string)
    ensures |t| <= |s| && t == s[|s| - |t|..]
    ensures t == [] || t[0] !in cs
    ensures forall i :: 0 <= i < |s| - |t| ==> s[i] in cs
  {
    if s != [] && s[0] in cs then
      var t := DropLeading(s[1..], cs);
      assert s[|s| - |t|..] == s[1..][|s| - 1 - |t|..];
      assert forall i :: 1 <= i < |s| - |t| ==> s[i] == s[1..][i - 1];
      t
    else s
  }

  /** `s.replace(/[cs]+/g, rep)`: each maximal run of characters of `cs` becomes `rep`. */
  function CollapseRuns(s: string, cs: set<char>, rep: string): string
    decreases |s|
  {
    if s == [] then []
    else if s[0] in cs then rep + CollapseRuns(DropLeading(s, cs), cs, rep)
    else [s[0]] + CollapseRuns(s[1..], cs, rep)
  }

  /**
   * The third replacement (spaces, a newline, spaces; all become one newline). Scanning from the left, a run of spaces is
   * matched only when a newline follows it; the spaces after a matched newline
   * are taken by the same match.
   */
  function TrimAroundNewlines(s: string): string
    decreases |s|
  {
    if s == [] then []
    else if s[0] == '\n' then "\n" + TrimAroundNewlines(DropLeading(s[1..], {' '}))
    else if s[0] == ' ' then
      var t := DropLeading(s, {' '});
      if t != [] && t[0] == '\n' then TrimAroundNewlines(t)
      else s[..|s| - |t|] + TrimAroundNewlines(t)
    else [s[0]] + TrimAroundNewlines(s[1..])
  }

  /** The three steps, in the order `compressWhiteSpace` applies them. */
  function CollapseNewlines(s: string): string { CollapseRuns(s, {'\n'}, "\n") }
  function CollapseBlanks(s: string): string { CollapseRuns(s, Blanks, " ") }

  function CompressWhiteSpace(s: string): (r: string)
    ensures '\t' !in r
    ensures NoDoubleSpace(r)
    ensures NoSpaceNextToNewline(r)
    ensures Strip(r) == Strip(s)
  {
    var one := CollapseNewlines(s);
    var two := CollapseBlanks(one);
    CollapseBlanksShape(one);
    StripCollapse(s, {'\n'}, "\n");
    StripCollapse(one, Blanks, " ");
    TrimKeepsShape(two);
    StripTrim(two);
    TrimAroundNewlines(two)
  }

  // ---------------------------------------------------------------------
  // Shapes of the output

  ghost predicate NoDoubleSpace(r: string)
  {
    forall i :: 0 <= i < |r| - 1 ==> !(r[i] == ' ' && r[i + 1] == ' ')
  }

  ghost predicate NoDoubleNewline(r: string)
  {
    forall i :: 0 <= i < |r| - 1 ==> !(r[i] == '\n' && r[i + 1] == '\n')
  }

  ghost predicate NoSpaceNextToNewline(r: string)
  {
    forall i :: 0 <= i < |r| - 1 ==> !(r[i] == ' ' && r[i + 1] == '\n') && !(r[i] == '\n' && r[i + 1] == ' ')
  }

  /** The characters of `s` that are not whitespace, in order. */
  function Strip(s: string): (r: string)
    ensures forall ch :: ch in r ==> ch in s && ch !in Whitespace
  {
    if s == [] then []
    else if s[0] in Whitespace then Strip(s[1..])
    else [s[0]] + Strip(s[1..])
  }

  lemma {:induction false} StripAppend(a: string, b: string)
    ensures Strip(a + b) == Strip(a) + Strip(b)
  {
    if a == [] {
      assert a + b == b;
    } else {
      assert (a + b)[0] == a[0] && (a + b)[1..] == a[1..] + b;
      StripAppend(a[1..], b);
    }
  }

  lemma {:induction false} StripAllWhite(s: string)
    requires forall i :: 0 <= i < |s| ==> s[i] in Whitespace
    ensures Strip(s) == []
  {
    if s != [] {
      StripAllWhite(s[1..]);
    }
  }

  lemma StripDropLeading(s: string, cs: set<char>)
    requires cs <= Whitespace
    ensures Strip(DropLeading(s, cs)) == Strip(s)
  {
    var t := DropLeading(s, cs);
    assert s == s[..|s| - |t|] + t;
    StripAppend(s[..|s| - |t|], t);
    StripAllWhite(s[..|s| - |t|]);
  }

  /** Collapsing runs of whitespace into whitespace keeps every other character. */
  lemma {:induction false} StripCollapse(s: string, cs: set<char>, rep: string)
    requires cs <= Whitespace
    requires forall i :: 0 <= i < |rep| ==> rep[i] in Whitespace
    ensures Strip(CollapseRuns(s, cs, rep)) == Strip(s)
    decreases |s|
  {
    if s == [] {
    } else if s[0] in cs {
      var t := DropLeading(s, cs);
      StripCollapse(t, cs, rep);
      StripAppend(rep, CollapseRuns(t, cs, rep));
      StripAllWhite(rep);
      StripDropLeading(s, cs);
    } else {
      StripCollapse(s[1..], cs, rep);
      StripAppend([s[0]], CollapseRuns(s[1..], cs, rep));
    }
  }

  lemma {:induction false} StripTrim(s: string)
    ensures Strip(TrimAroundNewlines(s)) == Strip(s)
    decreases |s|
  {
    if s == [] {
    } else if s[0] == '\n' {
      var u := DropLeading(s[1..], {' '});
      StripTrim(u);
      StripAppend("\n", TrimAroundNewlines(u));
      StripDropLeading(s[1..], {' '});
    } else if s[0] == ' ' {
      var t := DropLeading(s, {' '});
      StripTrim(t);
      StripDropLeading(s, {' '});
      if !(t != [] && t[0] == '\n') {
        StripAppend(s[..|s| - |t|], TrimAroundNewlines(t));
        StripAllWhite(s[..|s| - |t|]);
      }
    } else {
      StripTrim(s[1..]);
      StripAppend([s[0]], TrimAroundNewlines(s[1..]));
    }
  }

  /** A collapsed run never sits next to another character of the run's class. */
  lemma {:induction false} CollapseHead(s: string, cs: set<char>, rep: string)
    requires s != [] && s[0] !in cs
    ensures CollapseRuns(s, cs, rep) != [] && CollapseRuns(s, cs, rep)[0] == s[0]
  {
  }

  lemma {:induction false} CollapseNoClassChar(s: string, cs: set<char>, rep: string, ch: char)
    requires ch in cs && ch !in rep
    ensures ch !in CollapseRuns(s, cs, rep)
    decreases |s|
  {
    if s == [] {
    } else if s[0] in cs {
      CollapseNoClassChar(DropLeading(s, cs), cs, rep, ch);
    } else {
      CollapseNoClassChar(s[1..], cs, rep, ch);
    }
  }

  /** Runs of a class replaced by one character of that class leave no two of them adjacent. */
  lemma {:induction false} CollapseNoPair(s: string, cs: set<char>, c: char)
    requires c in cs
    ensures forall i :: 0 <= i < |CollapseRuns(s, cs, [c])| - 1 ==>
      !(CollapseRuns(s, cs, [c])[i] in cs && CollapseRuns(s, cs, [c])[i + 1] in cs)
    decreases |s|
  {
    if s == [] {
    } else if s[0] in cs {
      var t := DropLeading(s, cs);
      CollapseNoPair(t, cs, c);
      if t != [] {
        CollapseHead(t, cs, [c]);
      }
      var r := CollapseRuns(t, cs, [c]);
      assert CollapseRuns(s, cs, [c]) == [c] + r;
    } else {
      CollapseNoPair(s[1..], cs, c);
      assert CollapseRuns(s, cs, [c]) == [s[0]] + CollapseRuns(s[1..], cs, [c]);
    }
  }

  /** Step one: no two newlines are adjacent after `/\n+/g` becomes "\n". */
  lemma CollapseNewlinesShape(s: string)
    ensures NoDoubleNewline(CollapseNewlines(s))
  {
    CollapseNoPair(s, {'\n'}, '\n');
  }

  /** Step two: no tab and no two adjacent spaces after `/[\t ]+/g` becomes " ". */
  lemma CollapseBlanksShape(s: string)
    ensures '\t' !in CollapseBlanks(s)
    ensures NoDoubleSpace(CollapseBlanks(s))
  {
    CollapseNoClassChar(s, Blanks, " ", '\t');
    CollapseNoPair(s, Blanks, ' ');
  }

  lemma {:induction false} TrimHead(t: string)
    requires t != [] && t[0] != ' '
    ensures TrimAroundNewlines(t) != [] && TrimAroundNewlines(t)[0] == t[0]
  {
  }

  lemma {:induction false} TrimNoNewTab(s: string)
    requires '\t' !in s
    ensures '\t' !in TrimAroundNewlines(s)
    decreases |s|
  {
    if s == [] {
    } else if s[0] == '\n' {
      TrimNoNewTab(DropLeading(s[1..], {' '}));
    } else if s[0] == ' ' {
      var t := DropLeading(s, {' '});
      TrimNoNewTab(t);
    } else {
      TrimNoNewTab(s[1..]);
    }
  }

  lemma NoSpaceNextToNewlineConcat(a: string, b: string)
    requires NoSpaceNextToNewline(a) && NoSpaceNextToNewline(b)
    requires a != [] && b != [] ==>
      !(a[|a| - 1] == ' ' && b[0] == '\n') && !(a[|a| - 1] == '\n' && b[0] == ' ')
    ensures NoSpaceNextToNewline(a + b)
  {
    var r := a + b;
    forall i | 0 <= i < |r| - 1
      ensures !(r[i] == ' ' && r[i + 1] == '\n') && !(r[i] == '\n' && r[i + 1] == ' ')
    {
      if i + 1 < |a| {
        assert r[i] == a[i] && r[i + 1] == a[i + 1];
      } else if i + 1 == |a| {
        assert r[i] == a[|a| - 1] && r[i + 1] == b[0];
      } else {
        assert r[i] == b[i - |a|] && r[i + 1] == b[i - |a| + 1];
      }
    }
  }

  lemma NoDoubleSpaceConcat(a: string, b: string)
    requires NoDoubleSpace(a) && NoDoubleSpace(b)
    requires a != [] && b != [] ==> !(a[|a| - 1] == ' ' && b[0] == ' ')
    ensures NoDoubleSpace(a + b)
  {
    var r := a + b;
    forall i | 0 <= i < |r| - 1 ensures !(r[i] == ' ' && r[i + 1] == ' ') {
      if i + 1 < |a| {
        assert r[i] == a[i] && r[i + 1] == a[i + 1];
      } else if i + 1 == |a| {
        assert r[i] == a[|a| - 1] && r[i + 1] == b[0];
      } else {
        assert r[i] == b[i - |a|] && r[i + 1] == b[i - |a| + 1];
      }
    }
  }

  lemma NoDoubleSpaceSuffix(s: string, k: nat)
    requires NoDoubleSpace(s) && k <= |s|
    ensures NoDoubleSpace(s[k..])
  {
    forall i | 0 <= i < |s[k..]| - 1 ensures !(s[k..][i] == ' ' && s[k..][i + 1] == ' ') {
      assert s[k..][i] == s[k + i] && s[k..][i + 1] == s[k + i + 1];
    }
  }

  /** Step three never leaves a space beside a newline, whatever its input. */
  lemma {:induction false} TrimNoSpaceNextToNewline(s: string)
    ensures NoSpaceNextToNewline(TrimAroundNewlines(s))
    decreases |s|
  {
    if s == [] {
    } else if s[0] == '\n' {
      var u := DropLeading(s[1..], {' '});
      TrimNoSpaceNextToNewline(u);
      if u != [] {
        TrimHead(u);
      }
      NoSpaceNextToNewlineConcat("\n", TrimAroundNewlines(u));
    } else if s[0] == ' ' {
      var t := DropLeading(s, {' '});
      TrimNoSpaceNextToNewline(t);
      if !(t != [] && t[0] == '\n') {
        var run := s[..|s| - |t|];
        if t != [] {
          TrimHead(t);
        }
        assert forall i :: 0 <= i < |run| ==> run[i] == ' ';
        NoSpaceNextToNewlineConcat(run, TrimAroundNewlines(t));
      }
    } else {
      TrimNoSpaceNextToNewline(s[1..]);
      NoSpaceNextToNewlineConcat([s[0]], TrimAroundNewlines(s[1..]));
    }
  }

  /** Step three keeps "no two adjacent spaces" when its input has that property. */
  lemma {:induction false} TrimNoDoubleSpace(s: string)
    requires NoDoubleSpace(s)
    ensures NoDoubleSpace(TrimAroundNewlines(s))
    decreases |s|
  {
    if s == [] {
    } else if s[0] == '\n' {
      var u := DropLeading(s[1..], {' '});
      NoDoubleSpaceSuffix(s, |s| - |u|);
      assert s[|s| - |u|..] == u;
      TrimNoDoubleSpace(u);
      NoDoubleSpaceConcat("\n", TrimAroundNewlines(u));
    } else if s[0] == ' ' {
      var t := DropLeading(s, {' '});
      NoDoubleSpaceSuffix(s, |s| - |t|);
      TrimNoDoubleSpace(t);
      if !(t != [] && t[0] == '\n') {
        var run := s[..|s| - |t|];
        assert |s| > 1 ==> !(s[0] == ' ' && s[1] == ' ');
        assert run == [' '];
        if t != [] {
          TrimHead(t);
        }
        NoDoubleSpaceConcat(run, TrimAroundNewlines(t));
      }
    } else {
      NoDoubleSpaceSuffix(s, 1);
      TrimNoDoubleSpace(s[1..]);
      NoDoubleSpaceConcat([s[0]], TrimAroundNewlines(s[1..]));
    }
  }

  lemma TrimKeepsShape(s: string)
    requires '\t' !in s && NoDoubleSpace(s)
    ensures '\t' !in TrimAroundNewlines(s)
    ensures NoDoubleSpace(TrimAroundNewlines(s))
    ensures NoSpaceNextToNewline(TrimAroundNewlines(s))
  {
    TrimNoNewTab(s);
    TrimNoSpaceNextToNewline(s);
    TrimNoDoubleSpace(s);
  }

  /** A string without whitespace passes through every step unchanged. */
  lemma {:induction false} CollapseIdentity(s: string, cs: set<char>, rep: string)
    requires forall i :: 0 <= i < |s| ==> s[i] !in cs
    ensures CollapseRuns(s, cs, rep) == s
  {
    if s != [] {
      CollapseIdentity(s[1..], cs, rep);
    }
  }

  lemma {:induction false} TrimIdentity(s: string)
    requires forall i :: 0 <= i < |s| ==> s[i] != ' ' && s[i] != '\n'
    ensures TrimAroundNewlines(s) == s
  {
    if s != [] {
      TrimIdentity(s[1..]);
    }
  }

  lemma CompressWithoutWhitespace(s: string)
    requires forall i :: 0 <= i < |s| ==> s[i] !in Whitespace
    ensures CompressWhiteSpace(s) == s
  {
    CollapseIdentity(s, {'\n'}, "\n");
    CollapseIdentity(s, Blanks, " ");
    TrimIdentity(s);
  }
}
