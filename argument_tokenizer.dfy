/**
 * ArgumentTokenizer and ArgumentMultimap: splitting an argument string into a preamble
 * and, for each recognised prefix, the ordered values that follow its occurrences.
 */
module ArgumentTokenizer {
  import opened Results
  import opened CliSyntax
  import opened StringUtil

  /** One prefix occurrence and the text that follows it up to the next occurrence. */
  datatype Arg = Arg(prefix: Prefix, value: string)

  /** The tokenizer's output before it is grouped by prefix. */
  datatype Tokens = Tokens(preamble: string, args: seq<Arg>)

  /** A prefix is recognised where its marker starts directly after a space. */
  predicate MatchAt(s: string, i: int, p: Prefix) {
    1 <= i && i + |Marker(p)| <= |s| && s[i - 1] == ' ' && s[i..i + |Marker(p)|] == Marker(p)
  }

  /** The first of the recognised prefixes `ps` whose marker occurs at index `i` of `s`. */
  function FindPrefixAt(s: string, i: int, ps: seq<Prefix>): (r: Option<Prefix>)
    ensures r.Some? ==> r.value in ps && MatchAt(s, i, r.value)
    ensures r.None? ==> forall p :: p in ps ==> !MatchAt(s, i, p)
  {
    if ps == [] then None
    else if MatchAt(s, i, ps[0]) then Some(ps[0])
    else FindPrefixAt(s, i, ps[1..])
  }

  predicate MatchAnyAt(s: string, i: int, ps: seq<Prefix>) {
    FindPrefixAt(s, i, ps).Some?
  }

  /**
   * Whether a marker occurs at a position depends only on the character before it and the
   * two characters from it on, so a match carries over to a string that agrees there.
   */
  lemma {:induction false} MatchAnyAtShift(s: string, i: int, t: string, j: int, ps: seq<Prefix>)
    requires 1 <= i && i + 2 <= |s| && 1 <= j && j + 2 <= |t|
    requires s[i - 1] == t[j - 1] && s[i] == t[j] && s[i + 1] == t[j + 1]
    requires !MatchAnyAt(t, j, ps)
    ensures forall q :: q in ps ==> !MatchAt(s, i, q)
  {
    assert s[i..i + 2] == t[j..j + 2];
    assert FindPrefixAt(t, j, ps).None?;
  }

  /** No recognised prefix occurs anywhere in `s`. */
  predicate NoMatch(s: string, ps: seq<Prefix>) {
    forall i :: 0 <= i < |s| ==> !MatchAnyAt(s, i, ps)
  }

  /** The smallest position at or after `from` where a recognised prefix occurs, or |s| if none does. */
  function FirstMatchFrom(s: string, ps: seq<Prefix>, from: nat): (r: nat)
    requires from <= |s|
    ensures from <= r <= |s|
    ensures r < |s| ==> MatchAnyAt(s, r, ps)
    ensures forall j :: from <= j < r ==> !MatchAnyAt(s, j, ps)
    decreases |s| - from
  {
    if from == |s| then |s|
    else if MatchAnyAt(s, from, ps) then from
    else FirstMatchFrom(s, ps, from + 1)
  }

  /**
   * The scan: the trimmed text before the first prefix occurrence is the preamble; each
   * occurrence contributes the trimmed text between its marker and the next occurrence.
   */
  function Chunks(s: string, ps: seq<Prefix>): (r: Tokens)
    ensures forall k :: 0 <= k < |r.args| ==> r.args[k].prefix in ps && Trimmed(r.args[k].value)
    ensures Trimmed(r.preamble)
    decreases |s|
  {
    var i := FirstMatchFrom(s, ps, 0);
    if i == |s| then Tokens(Trim(s), [])
    else
      var p := FindPrefixAt(s, i, ps).value;
      var rest := Chunks(s[i + |Marker(p)|..], ps);
      Tokens(Trim(s[..i]), [Arg(p, rest.preamble)] + rest.args)
  }

  /** The values of the occurrences of `p`, in the order they occur. */
  function Collect(args: seq<Arg>, p: Prefix): (r: seq<string>)
    ensures |r| <= |args|
    ensures forall v :: v in r <==> Arg(p, v) in args
  {
    if args == [] then []
    else (if args[0].prefix == p then [args[0].value] else []) + Collect(args[1..], p)
  }

  /** The prefixes that occur at least once. */
  function Supplied(args: seq<Arg>): set<Prefix> {
    set a | a in args :: a.prefix
  }

  /** ArgumentMultimap: the preamble, and each occurring prefix mapped to its ordered values. */
  datatype ArgumentMultimap = ArgumentMultimap(preamble: string, values: map<Prefix, seq<string>>)

  /** ArgumentMultimap.getAllValues: the values of `p`, or the empty list when `p` never occurred. */
  function AllValues(m: ArgumentMultimap, p: Prefix): seq<string> {
    if p in m.values then m.values[p] else []
  }

  /** ArgumentMultimap.getValue: the last value of `p`, if any. */
  function LastValue(m: ArgumentMultimap, p: Prefix): (r: Option<string>)
    ensures r.None? <==> AllValues(m, p) == []
    ensures r.Some? ==> r.value in AllValues(m, p)
  {
    var vs := AllValues(m, p);
    if vs == [] then None else Some(vs[|vs| - 1])
  }

  /** A prefix that never occurs has no values. */
  lemma {:induction false} CollectAbsent(args: seq<Arg>, p: Prefix)
    requires p !in Supplied(args)
    ensures Collect(args, p) == []
  {
    if args != [] {
      assert args[0] in args;
      assert Supplied(args[1..]) <= Supplied(args);
      CollectAbsent(args[1..], p);
    }
  }

  lemma {:induction false} CollectAbsentAll(args: seq<Arg>)
    ensures forall p :: p !in Supplied(args) ==> Collect(args, p) == []
  {
    forall p | p !in Supplied(args) {
      CollectAbsent(args, p);
    }
  }

  /**
   * The multimap of a scan: it keeps the preamble and answers every prefix with the
   * ordered values of its occurrences, the empty list for a prefix that never occurred.
   */
  function BuildMultimap(preamble: string, args: seq<Arg>): (r: ArgumentMultimap)
    ensures r.preamble == preamble
    ensures forall p :: AllValues(r, p) == Collect(args, p)
  {
    CollectAbsentAll(args);
    ArgumentMultimap(preamble, map p | p in Supplied(args) :: Collect(args, p))
  }

  /**
   * ArgumentTokenizer.tokenize: recognises exactly the prefixes `ps`. The preamble and
   * every value come out trimmed, and a prefix outside `ps` never has a value.
   */
  function Tokenize(s: string, ps: seq<Prefix>): (r: ArgumentMultimap)
    ensures Trimmed(r.preamble)
    ensures forall p, v :: v in AllValues(r, p) ==> p in ps && Trimmed(v)
  {
    var t := Chunks(s, ps);
    var r := BuildMultimap(t.preamble, t.args);
    assert forall p, v :: v in AllValues(r, p) ==> Arg(p, v) in t.args;
    r
  }

  /** The argument string `preamble p1/v1 p2/v2 ...`, as the command's users and tests write it. */
  function Render(preamble: string, args: seq<Arg>): string {
    preamble + RenderArgs(args)
  }

  function RenderArgs(args: seq<Arg>): string {
    if args == [] then "" else " " + Marker(args[0].prefix) + args[0].value + RenderArgs(args[1..])
  }

  /** The values of `args` with String.trim applied. */
  function TrimValues(args: seq<Arg>): seq<Arg> {
    if args == [] then [] else [Arg(args[0].prefix, Trim(args[0].value))] + TrimValues(args[1..])
  }

  /** Trimming the values keeps every occurrence in place with its prefix. */
  lemma {:induction false} TrimValuesAt(args: seq<Arg>)
    ensures |TrimValues(args)| == |args|
    ensures forall k :: 0 <= k < |args| ==>
      TrimValues(args)[k] == Arg(args[k].prefix, Trim(args[k].value))
  {
    if args != [] {
      TrimValuesAt(args[1..]);
    }
  }

  lemma {:induction false} TrimValuesCons(a: Arg, rest: seq<Arg>)
    ensures TrimValues([a] + rest) == [Arg(a.prefix, Trim(a.value))] + TrimValues(rest)
  {
    assert ([a] + rest)[1..] == rest;
  }

  /**
   * Trimming the values changes neither which prefixes occur nor how often each does,
   * and leaves every value trimmed.
   */
  lemma {:induction false} TrimValuesShape(args: seq<Arg>)
    ensures forall a :: a in TrimValues(args) ==> Trimmed(a.value)
    ensures Supplied(TrimValues(args)) == Supplied(args)
    ensures forall p :: |Collect(TrimValues(args), p)| == |Collect(args, p)|
  {
    if args != [] {
      var a, rest := args[0], args[1..];
      assert args == [a] + rest;
      TrimValuesShape(rest);
      TrimValuesCons(a, rest);
      var tv := TrimValues(args);
      assert tv[1..] == TrimValues(rest);
      assert Supplied(tv) == {a.prefix} + Supplied(TrimValues(rest));
      assert Supplied(args) == {a.prefix} + Supplied(rest);
    }
  }

  /** Rendered argument lists whose texts contain no recognised prefix. */
  predicate PlainArgs(args: seq<Arg>, ps: seq<Prefix>) {
    forall a :: a in args ==> a.prefix in ps && NoMatch(a.value, ps)
  }

  /** No recognised prefix occurs in `pre + " " + marker + rest` at a position up to the space. */
  lemma {:induction false} NoMatchBeforeMarker(pre: string, p: Prefix, rest: string, ps: seq<Prefix>, j: nat)
    requires NoMatch(pre, ps) && j <= |pre|
    ensures !MatchAnyAt(pre + " " + Marker(p) + rest, j, ps)
  {
    var s := pre + " " + Marker(p) + rest;
    var n := |pre|;
    if 1 <= j {
      forall q | q in ps
        ensures !MatchAt(s, j, q)
      {
        if j + 2 <= n {
          MatchAnyAtShift(s, j, pre, j, ps);
        } else if j == n - 1 {
          assert s[j + 1] == ' ';
        } else {
          assert s[j] == ' ';
        }
      }
    }
  }

  /** The marker right after a plain preamble is recognised as its own prefix. */
  lemma {:induction false} FindsMarkerAfterPlain(pre: string, p: Prefix, rest: string, ps: seq<Prefix>)
    requires p in ps
    ensures FindPrefixAt(pre + " " + Marker(p) + rest, |pre| + 1, ps) == Some(p)
  {
    var m := Marker(p);
    var s := pre + " " + m + rest;
    var n := |pre|;
    assert s[n] == ' ';
    assert s[n + 1..n + 1 + |m|] == m;
    assert MatchAt(s, n + 1, p);
    var q := FindPrefixAt(s, n + 1, ps).value;
    assert Marker(q)[0] == s[n + 1] == m[0];
    MarkersDistinct(p, q);
  }

  /**
   * When `pre` contains no recognised prefix, the first occurrence in
   * `pre + " " + marker + rest` is the marker right after `pre`.
   */
  lemma {:induction false} FirstMatchAfterPlain(pre: string, p: Prefix, rest: string, ps: seq<Prefix>)
    requires NoMatch(pre, ps) && p in ps
    ensures var s := pre + " " + Marker(p) + rest;
      FirstMatchFrom(s, ps, 0) == |pre| + 1 && FindPrefixAt(s, |pre| + 1, ps) == Some(p)
  {
    var s := pre + " " + Marker(p) + rest;
    var n := |pre|;
    FindsMarkerAfterPlain(pre, p, rest, ps);
    assert MatchAnyAt(s, n + 1, ps);
    var r := FirstMatchFrom(s, ps, 0);
    if r < n + 1 {
      NoMatchBeforeMarker(pre, p, rest, ps, r);
      assert false;
    } else if r > n + 1 {
      assert false;
    }
  }

  /** A text without recognised prefixes is all preamble. */
  lemma {:induction false} ChunksOfPlain(s: string, ps: seq<Prefix>)
    requires NoMatch(s, ps)
    ensures Chunks(s, ps) == Tokens(Trim(s), [])
  {
    var r := FirstMatchFrom(s, ps, 0);
    if r < |s| {
      assert false;
    }
  }

  /** One step of the scan: the marker right after a plain preamble starts the first argument. */
  lemma {:induction false} ChunksAfterPlain(pre: string, p: Prefix, rest: string, ps: seq<Prefix>)
    requires NoMatch(pre, ps) && p in ps
    ensures var c := Chunks(rest, ps);
      Chunks(pre + " " + Marker(p) + rest, ps) == Tokens(Trim(pre), [Arg(p, c.preamble)] + c.args)
  {
    var m := Marker(p);
    var s := pre + " " + m + rest;
    FirstMatchAfterPlain(pre, p, rest, ps);
    var n := |pre|;
    assert s[..n + 1] == pre + [' '];
    TrimAppendSpace(pre, ' ');
    assert s[n + 1 + |m|..] == rest;
  }

  /** The same step, phrased for a rendered remainder. */
  lemma {:induction false} ChunksStep(pre: string, p: Prefix, v: string, rest: seq<Arg>, ps: seq<Prefix>)
    requires NoMatch(pre, ps) && p in ps
    requires Chunks(Render(v, rest), ps) == Tokens(Trim(v), TrimValues(rest))
    ensures Chunks(pre + " " + Marker(p) + Render(v, rest), ps)
         == Tokens(Trim(pre), [Arg(p, Trim(v))] + TrimValues(rest))
  {
    ChunksAfterPlain(pre, p, Render(v, rest), ps);
  }

  /**
   * Scanning a rendered argument string gives back its preamble and its arguments,
   * trimmed, provided none of the texts contains a recognised prefix.
   */
  lemma {:induction false} ChunksOfRender(pre: string, args: seq<Arg>, ps: seq<Prefix>)
    requires NoMatch(pre, ps) && PlainArgs(args, ps)
    ensures Chunks(Render(pre, args), ps) == Tokens(Trim(pre), TrimValues(args))
    decreases |args|
  {
    if args == [] {
      assert Render(pre, args) == pre;
      ChunksOfPlain(pre, ps);
    } else {
      var a, rest := args[0], args[1..];
      assert args == [a] + rest;
      assert Render(pre, args) == pre + " " + Marker(a.prefix) + Render(a.value, rest);
      ChunksOfRender(a.value, rest, ps);
      ChunksStep(pre, a.prefix, a.value, rest, ps);
      TrimValuesCons(a, rest);
    }
  }

  /**
   * The marker of a prefix that is not recognised is ordinary text: written between two
   * texts without recognised prefixes, it leaves the whole string without one.
   */
  lemma {:induction false} UnrecognisedMarkerIsText(pre: string, p: Prefix, rest: string, ps: seq<Prefix>)
    requires NoMatch(pre, ps) && NoMatch(rest, ps) && p !in ps
    ensures NoMatch(pre + " " + Marker(p) + rest, ps)
  {
    var s := pre + " " + Marker(p) + rest;
    var n := |pre|;
    forall i, q | 0 <= i < |s| && q in ps
      ensures !MatchAt(s, i, q)
    {
      if 1 <= i && i + 2 <= |s| {
        if i < n - 1 {
          assert s[i - 1] == pre[i - 1];
          assert s[i..i + 2] == pre[i..i + 2];
          assert !MatchAnyAt(pre, i, ps);
        } else if i == n - 1 {
          assert s[i + 1] == ' ';
        } else if i == n {
          assert s[i] == ' ';
        } else if i == n + 1 {
          assert s[i..i + 2] == Marker(p);
          if Marker(q) == Marker(p) {
            MarkersDistinct(p, q);
          }
        } else if i == n + 2 {
          assert s[i - 1] == Marker(p)[0];
        } else if i == n + 3 {
          assert s[i - 1] == '/';
        } else {
          var k := i - (n + 3);
          assert s[i - 1] == rest[k - 1];
          assert s[i..i + 2] == rest[k..k + 2];
          assert !MatchAnyAt(rest, k, ps);
        }
      }
    }
  }

  /** A prefix is only recognised after a space, so a text without spaces contains none. */
  lemma {:induction false} NoSpaceHasNoMatch(s: string, ps: seq<Prefix>)
    requires forall k :: 0 <= k < |s| ==> s[k] != ' '
    ensures NoMatch(s, ps)
  {
    forall i, q | 0 <= i < |s| && q in ps
      ensures !MatchAt(s, i, q)
    {
      if 1 <= i {
        assert s[i - 1] != ' ';
      }
    }
  }

  /** Numerals contain no recognised prefix. */
  lemma {:induction false} NumeralHasNoMatch(n: nat, ps: seq<Prefix>)
    ensures NoMatch(Numeral(n), ps)
  {
    var s := Numeral(n);
    assert forall k :: 0 <= k < |s| ==> IsDigit(s[k]);
    NoSpaceHasNoMatch(s, ps);
  }

  /**
   * Two texts without recognised prefixes, joined by a space, still have none, provided
   * the second does not start with a recognised marker.
   */
  lemma {:induction false} JoinHasNoMatch(a: string, b: string, ps: seq<Prefix>)
    requires NoMatch(a, ps) && NoMatch(b, ps)
    requires forall p :: p in ps && |Marker(p)| <= |b| ==> b[..|Marker(p)|] != Marker(p)
    ensures NoMatch(a + " " + b, ps)
  {
    var s := a + " " + b;
    var n := |a|;
    forall i, q | 0 <= i < |s| && q in ps
      ensures !MatchAt(s, i, q)
    {
      if 1 <= i && i + 2 <= |s| {
        if i < n - 1 {
          MatchAnyAtShift(s, i, a, i, ps);
        } else if i == n - 1 {
          assert s[i + 1] == ' ';
        } else if i == n {
          assert s[i] == ' ';
        } else if i == n + 1 {
          assert s[i..i + 2] == b[..2];
        } else {
          var k := i - (n + 1);
          MatchAnyAtShift(s, i, b, k, ps);
        }
      }
    }
  }

  /** Tokenizing a rendered argument string recovers the multimap of its trimmed parts. */
  lemma {:induction false} TokenizeRender(pre: string, args: seq<Arg>, ps: seq<Prefix>)
    requires NoMatch(pre, ps) && PlainArgs(args, ps)
    ensures Tokenize(Render(pre, args), ps) == BuildMultimap(Trim(pre), TrimValues(args))
  {
    ChunksOfRender(pre, args, ps);
  }

  /** A prefix of `s` that ends before the first occurrence contains no occurrence. */
  lemma {:induction false} NoMatchBeforeFirst(s: string, n: nat, ps: seq<Prefix>)
    requires n <= |s|
    requires forall j :: 0 <= j < n ==> !MatchAnyAt(s, j, ps)
    ensures NoMatch(s[..n], ps)
  {
    var t := s[..n];
    forall j, q | 0 <= j < n && q in ps
      ensures !MatchAt(t, j, q)
    {
      if 1 <= j && j + |Marker(q)| <= n {
        assert t[j - 1] == s[j - 1];
        assert t[j..j + |Marker(q)|] == s[j..j + |Marker(q)|];
        assert !MatchAnyAt(s, j, ps);
      }
    }
  }

  /** Rendering an argument list one occurrence at a time. */
  lemma {:induction false} RenderCons(pre: string, a: Arg, rest: seq<Arg>)
    ensures Render(pre, [a] + rest) == pre + " " + Marker(a.prefix) + Render(a.value, rest)
  {
    assert ([a] + rest)[1..] == rest;
  }

  /** Cutting `s` around an occurrence at `i` and rendering the pieces gives back `s`. */
  lemma {:induction false} RenderAroundMatch(s: string, i: nat, p: Prefix, rest: Tokens)
    requires MatchAt(s, i, p)
    requires Render(rest.preamble, rest.args) == s[i + |Marker(p)|..]
    ensures Render(s[..i - 1], [Arg(p, rest.preamble)] + rest.args) == s
  {
    RenderCons(s[..i - 1], Arg(p, rest.preamble), rest.args);
    assert s == s[..i - 1] + [s[i - 1]] + s[i..i + |Marker(p)|] + s[i + |Marker(p)|..];
  }

  /**
   * The scan without trimming: the text before the first occurrence (less the space in
   * front of the marker) and, per occurrence, the text up to the next one. Every argument
   * string is the rendering of these pieces, none of which contains a recognised prefix.
   */
  function RawChunks(s: string, ps: seq<Prefix>): (r: Tokens)
    ensures Render(r.preamble, r.args) == s
    ensures NoMatch(r.preamble, ps) && PlainArgs(r.args, ps)
    decreases |s|
  {
    var i := FirstMatchFrom(s, ps, 0);
    if i == |s| then
      NoMatchBeforeFirst(s, |s|, ps);
      assert s[..|s|] == s;
      Tokens(s, [])
    else
      var p := FindPrefixAt(s, i, ps).value;
      var rest := RawChunks(s[i + |Marker(p)|..], ps);
      NoMatchBeforeFirst(s, i - 1, ps);
      RenderAroundMatch(s, i, p, rest);
      Tokens(s[..i - 1], [Arg(p, rest.preamble)] + rest.args)
  }

  /**
   * The tokenizer on any argument string: its multimap is built from the trimmed pieces
   * of the untrimmed scan.
   */
  lemma {:induction false} TokenizeAnyString(s: string, ps: seq<Prefix>)
    ensures var t := RawChunks(s, ps);
      Tokenize(s, ps) == BuildMultimap(Trim(t.preamble), TrimValues(t.args))
  {
    var t := RawChunks(s, ps);
    TokenizeRender(t.preamble, t.args, ps);
  }

  /** Texts that String.trim leaves alone and that contain no recognised prefix. */
  predicate Plain(s: string, ps: seq<Prefix>) {
    Trimmed(s) && NoMatch(s, ps)
  }

  predicate PlainTrimmedArgs(args: seq<Arg>, ps: seq<Prefix>) {
    PlainArgs(args, ps) && forall a :: a in args ==> Trimmed(a.value)
  }

  lemma {:induction false} TrimValuesOfTrimmed(args: seq<Arg>)
    requires forall a :: a in args ==> Trimmed(a.value)
    ensures TrimValues(args) == args
  {
    if args != [] {
      var a, rest := args[0], args[1..];
      assert Trim(a.value) == a.value;
      TrimValuesOfTrimmed(rest);
      assert args == [a] + rest;
    }
  }

  /** Appending an occurrence appends its value to the values of its prefix only. */
  lemma {:induction false} CollectAppend(args: seq<Arg>, x: Arg, p: Prefix)
    ensures Collect(args + [x], p) == Collect(args, p) + (if x.prefix == p then [x.value] else [])
  {
    if args != [] {
      assert (args + [x])[1..] == args[1..] + [x];
      CollectAppend(args[1..], x, p);
    }
  }

  /**
   * Round trip: tokenizing `pre p1/v1 p2/v2 ...` yields the preamble `pre` and, for every
   * prefix, exactly the values written after it, in order (an absent prefix has none).
   */
  lemma {:induction false} TokenizeRenderPlain(pre: string, args: seq<Arg>, ps: seq<Prefix>)
    requires Plain(pre, ps) && PlainTrimmedArgs(args, ps)
    ensures Tokenize(Render(pre, args), ps) == BuildMultimap(pre, args)
    ensures Tokenize(Render(pre, args), ps).preamble == pre
    ensures forall p :: AllValues(Tokenize(Render(pre, args), ps), p) == Collect(args, p)
  {
    TokenizeRender(pre, args, ps);
    assert Trim(pre) == pre;
    TrimValuesOfTrimmed(args);
  }

  /**
   * ArgumentMultimap.verifyNoDuplicatePrefixesFor: the prefixes of `ps` that occurred more
   * than once, listed in the order of `ps`; the command fails when this is non-empty.
   */
  function DuplicatedPrefixes(m: ArgumentMultimap, ps: seq<Prefix>): (r: seq<Prefix>)
    ensures forall p :: p in r <==> p in ps && |AllValues(m, p)| > 1
    ensures |r| <= |ps|
  {
    if ps == [] then []
    else (if |AllValues(m, ps[0])| > 1 then [ps[0]] else []) + DuplicatedPrefixes(m, ps[1..])
  }

  /** Nothing is reported when no prefix is repeated. */
  lemma {:induction false} NoDuplicatesWithoutRepeats(m: ArgumentMultimap, ps: seq<Prefix>)
    requires forall p :: p in ps ==> |AllValues(m, p)| <= 1
    ensures DuplicatedPrefixes(m, ps) == []
  {
    if ps != [] {
      NoDuplicatesWithoutRepeats(m, ps[1..]);
    }
  }

  /**
   * The duplicate report depends only on which prefixes were repeated, not on where or
   * how often they occurred, nor on the values given.
   */
  lemma {:induction false} DuplicatesDependOnlyOnRepeats(m1: ArgumentMultimap, m2: ArgumentMultimap, ps: seq<Prefix>)
    requires forall p :: p in ps ==> (|AllValues(m1, p)| > 1 <==> |AllValues(m2, p)| > 1)
    ensures DuplicatedPrefixes(m1, ps) == DuplicatedPrefixes(m2, ps)
  {
    if ps != [] {
      DuplicatesDependOnlyOnRepeats(m1, m2, ps[1..]);
    }
  }
}
