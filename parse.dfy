/**
  The path grammar of `internal/utils/parse.go`: a path is split at every '.',
  empty segments are skipped, and each remaining segment is either a plain key
  or `key[index]` / `[index]` with exactly one bracketed signed decimal index
  at its end.
*/
module PathParser {
  import opened Base
  import opened GoStrings
  import opened Document

  /** The three ways `ParsePath` rejects a path; each carries the text it reports. */
  datatype PathError =
    | MissingBracket(segment: string)
    | InvalidIndex(text: string)
    | UnsupportedFormat(segment: string)

  type Parse = Result<seq<Token>, PathError>

  /** The key token a bracketed segment produces before its index, if the key part is non-empty. */
  function KeyPart(key: string): seq<Token>
  {
    if key == "" then [] else [Key(key)]
  }

  /** The tokens for one '.'-separated segment (the body of the loop in `ParsePath`). */
  function ParseSegment(part: string): (r: Parse)
    ensures '[' !in part ==> r.Ok?
    ensures r.Ok? ==> |r.value| <= 2 && (|r.value| == 2 ==> r.value[0].Key? && r.value[1].Idx?)
  {
    if part == "" then Ok([])
    else if '[' !in part then Ok([Key(part)])
    else ParseBracketed(part, IndexOf(part, '['), IndexOf(part, ']'))
  }

  /**
    A segment containing '[', given the positions of its first '[' and of its
    first ']' (-1 when there is none): the brackets must come in that order,
    enclose an `Atoi` number, and end the segment.
  */
  function ParseBracketed(part: string, open: int, close: int): (r: Parse)
    requires 0 <= open < |part| && part[open] == '['
    requires close == -1 || (0 <= close < |part| && part[close] == ']')
    ensures close == -1 || close < open ==> r.Err? && r.error.MissingBracket?
    ensures r.Ok? ==> 1 <= |r.value| <= 2 && r.value[|r.value| - 1].Idx? && (|r.value| == 2 ==> r.value[0].Key?)
  {
    if close == -1 || close < open then Err(MissingBracket(part))
    else
      var idxStr := part[open + 1..close];
      match Atoi(idxStr)
      case None => Err(InvalidIndex(idxStr))
      case Some(i) =>
        if close + 1 < |part| then Err(UnsupportedFormat(part))
        else Ok(KeyPart(part[..open]) + [Idx(i)])
  }

  /** `ts` in front of the tokens of a successful parse; an error passes through. */
  function Prepend(ts: seq<Token>, r: Parse): Parse
  {
    match r
    case Ok(rest) => Ok(ts + rest)
    case Err(e) => Err(e)
  }

  /** The segments parsed left to right; the first failing segment decides the error. */
  function ParseParts(parts: seq<string>): (r: Parse)
    ensures (forall j :: 0 <= j < |parts| ==> '[' !in parts[j]) ==> r.Ok?
    ensures r.Ok? ==> |r.value| <= 2 * |parts|
  {
    if parts == [] then Ok([])
    else
      match ParseSegment(parts[0])
      case Err(e) => Err(e)
      case Ok(ts) => Prepend(ts, ParseParts(parts[1..]))
  }

  /** What `ParsePath(path)` returns. */
  function ParseSpec(path: string): (r: Parse)
    ensures r.Ok? ==> |r.value| <= 2 * |Split(path, '.')|
  {
    ParseParts(Split(path, '.'))
  }

  /** One step of the segment loop. */
  lemma ParsePartsStep(parts: seq<string>, k: nat)
    requires k < |parts|
    ensures ParseParts(parts[k..]) ==
      match ParseSegment(parts[k])
      case Err(e) => Err(e)
      case Ok(ts) => Prepend(ts, ParseParts(parts[k + 1..]))
  {
    assert parts[k..][1..] == parts[k + 1..];
  }

  /** Prepending in two steps is prepending the concatenation. */
  lemma PrependTwice(a: seq<Token>, b: seq<Token>, r: Parse)
    ensures Prepend(a, Prepend(b, r)) == Prepend(a + b, r)
  {
    if r.Ok? {
      assert a + (b + r.value) == a + b + r.value;
    }
  }

  /** Prepending no tokens changes nothing. */
  lemma PrependNothing(r: Parse)
    ensures Prepend([], r) == r
  {
    if r.Ok? {
      assert [] + r.value == r.value;
    }
  }

  /**
    The body of the segment loop of `ParsePath`: appends the tokens of one
    non-empty segment to `tokens`, or reports why the segment is rejected.
  */
  method AppendSegment(part: string, tokens: seq<Token>) returns (tokens': seq<Token>, err: Option<PathError>)
    requires part != ""
    ensures match ParseSegment(part)
      case Ok(ts) => err == None && tokens' == tokens + ts
      case Err(e) => err == Some(e)
  {
    if '[' in part {
      IndexOfFirst(part, '[');
      IndexOfFirst(part, ']');
      var open := IndexOf(part, '[');
      var close := IndexOf(part, ']');
      if close == -1 || close < open {
        return tokens, Some(MissingBracket(part));
      }
      var key := part[..open];
      tokens' := tokens;
      if key != "" {
        tokens' := tokens' + [Key(key)];
      }
      var idxStr := part[open + 1..close];
      var idx := Atoi(idxStr);
      if idx.None? {
        return tokens', Some(InvalidIndex(idxStr));
      }
      tokens' := tokens' + [Idx(idx.value)];
      if close + 1 < |part| {
        return tokens', Some(UnsupportedFormat(part));
      }
      assert tokens' == tokens + (KeyPart(key) + [Idx(idx.value)]);
      err := None;
    } else {
      tokens' := tokens + [Key(part)];
      err := None;
    }
  }

  /** `ParsePath` (parse.go): the loop over the '.'-separated segments, accumulating tokens. */
  method ParsePath(path: string) returns (r: Parse)
    ensures r == ParseSpec(path)
  {
    var parts := Split(path, '.');
    var tokens: seq<Token> := [];
    var k := 0;
    PrependNothing(ParseParts(parts));
    assert parts[k..] == parts;
    while k < |parts|
      invariant 0 <= k <= |parts|
      invariant ParseParts(parts) == Prepend(tokens, ParseParts(parts[k..]))
    {
      var part := parts[k];
      ParsePartsStep(parts, k);
      if part == "" {
        PrependTwice(tokens, [], ParseParts(parts[k + 1..]));
        assert tokens + [] == tokens;
        k := k + 1;
        continue;
      }
      ghost var before := tokens;
      var err;
      tokens, err := AppendSegment(part, tokens);
      if err.Some? {
        return Err(err.value);
      }
      assert ParseSegment(part).Ok?;
      PrependTwice(before, ParseSegment(part).value, ParseParts(parts[k + 1..]));
      assert ParseParts(parts) == Prepend(tokens, ParseParts(parts[k + 1..]));
      k := k + 1;
    }
    assert parts[k..] == [];
    assert tokens + [] == tokens;
    return Ok(tokens);
  }

  // ---- Properties of the grammar

  /** The outcome of parsing the segments of `p` and then those of `q`. */
  function Concat(r1: Parse, r2: Parse): Parse
  {
    match r1
    case Err(e) => Err(e)
    case Ok(ts) => Prepend(ts, r2)
  }

  /** Parsing a list of segments is parsing its two halves one after the other. */
  lemma {:induction false} ParsePartsAppend(p: seq<string>, q: seq<string>)
    ensures ParseParts(p + q) == Concat(ParseParts(p), ParseParts(q))
    decreases |p|
  {
    if p == [] {
      assert p + q == q;
      PrependNothing(ParseParts(q));
    } else {
      assert (p + q)[0] == p[0];
      assert (p + q)[1..] == p[1..] + q;
      ParsePartsAppend(p[1..], q);
      match ParseSegment(p[0]) {
        case Err(_) =>
        case Ok(ts) =>
          match ParseParts(p[1..]) {
            case Err(_) =>
            case Ok(rest) => PrependTwice(ts, rest, ParseParts(q));
          }
      }
    }
  }

  /** Empty segments are skipped wherever they occur: doubled, leading or trailing dots. */
  lemma EmptySegmentsSkipped(x: string, y: string)
    ensures ParseSpec(x + ".." + y) == ParseSpec(x + "." + y)
    ensures ParseSpec("." + x) == ParseSpec(x)
    ensures ParseSpec(x + ".") == ParseSpec(x)
    ensures ParseSpec("") == Ok([])
  {
    DoubledDotSkipped(x, y);
    LeadingDotSkipped(x);
    TrailingDotSkipped(x);
    EmptyPathParses();
  }

  lemma EmptyPathParses()
    ensures ParseSpec("") == Ok([])
  {
    assert Split("", '.') == [""];
    assert [""][1..] == [];
    PrependNothing(Ok([]));
  }

  lemma DoubledDotSkipped(x: string, y: string)
    ensures ParseSpec(x + ".." + y) == ParseSpec(x + "." + y)
  {
    var X := Split(x, '.');
    var Y := Split(y, '.');
    assert x + ".." + y == x + ['.'] + ("" + ['.'] + y);
    SplitAround(x, '.', "" + ['.'] + y);
    SplitAround("", '.', y);
    assert x + "." + y == x + ['.'] + y;
    SplitAround(x, '.', y);
    assert Split(x + ".." + y, '.') == X + ([""] + Y);
    assert ParseParts([""] + Y) == ParseParts(Y) by {
      ParsePartsAppend([""], Y);
      PrependNothing(ParseParts(Y));
    }
    ParsePartsAppend(X, [""] + Y);
    ParsePartsAppend(X, Y);
  }

  lemma LeadingDotSkipped(x: string)
    ensures ParseSpec("." + x) == ParseSpec(x)
  {
    var X := Split(x, '.');
    assert "." + x == "" + ['.'] + x;
    SplitAround("", '.', x);
    assert Split("." + x, '.') == [""] + X;
    ParsePartsAppend([""], X);
    PrependNothing(ParseParts(X));
  }

  lemma TrailingDotSkipped(x: string)
    ensures ParseSpec(x + ".") == ParseSpec(x)
  {
    var X := Split(x, '.');
    assert x + "." == x + ['.'] + "";
    SplitAround(x, '.', "");
    assert Split(x + ".", '.') == X + [""];
    ParsePartsAppend(X, [""]);
    match ParseParts(X) {
      case Err(_) =>
      case Ok(ts) => assert ts + [] == ts;
    }
  }

  /**
    A segment `k[d]t` whose key part `k` has no brackets and whose first ']'
    closes `d`: `d` must be an `Atoi` number and `t` must be empty, and the
    number is checked first.
  */
  lemma BracketedSegment(part: string, k: string, d: string, t: string)
    requires part == k + "[" + d + "]" + t
    requires '[' !in k && ']' !in k && ']' !in d
    ensures ParseSegment(part) ==
        match Atoi(d)
        case None => Err(InvalidIndex(d))
        case Some(n) => if t == "" then Ok(KeyPart(k) + [Idx(n)]) else Err(UnsupportedFormat(part))
  {
    var c := |k| + 1 + |d|;
    assert part[|k|] == '[';
    assert part[..|k|] == k;
    assert part[c] == ']';
    assert part[..c] == k + "[" + d;
    IndexOfAt(part, '[', |k|);
    IndexOfAt(part, ']', c);
    var o := IndexOf(part, '[');
    var cl := IndexOf(part, ']');
    assert part[o + 1..cl] == d;
    assert |part| == c + 1 + |t|;
  }

  /**
    A segment with a '[' is rejected for a missing bracket exactly when a ']'
    occurs before its first '[' or none occurs after it.
  */
  lemma MissingBracketExactly(part: string)
    requires '[' in part
    ensures var o := IndexOf(part, '[');
      ParseSegment(part) == Err(MissingBracket(part)) <==> (']' in part[..o] || ']' !in part[o..])
  {
    var o := IndexOf(part, '[');
    assert ParseSegment(part) == Err(MissingBracket(part)) <==>
      (IndexOf(part, ']') == -1 || IndexOf(part, ']') < o);
    CloseBeforeOpen(part, o);
  }

  /** The first ']' is missing or before position `o` exactly when one occurs before `o` or none from `o` on. */
  lemma CloseBeforeOpen(part: string, o: nat)
    requires o <= |part|
    ensures (IndexOf(part, ']') == -1 || IndexOf(part, ']') < o) <==> (']' in part[..o] || ']' !in part[o..])
  {
    assert part == part[..o] + part[o..];
    IndexOfBelow(part, ']', o);
  }

  /** A key the parser can produce: non-empty and free of '.' and '['. */
  predicate CleanKey(k: string)
  {
    k != "" && '.' !in k && '[' !in k
  }

  predicate KeysClean(ts: seq<Token>)
  {
    forall i :: 0 <= i < |ts| ==> (ts[i].Key? ==> CleanKey(ts[i].key))
  }

  /** Every key the parser produces is non-empty and free of '.' and '['. */
  lemma KeysAreClean(path: string)
    ensures ParseSpec(path).Ok? ==> KeysClean(ParseSpec(path).value)
  {
    SplitPiecesFree(path, '.');
    PartsKeysClean(Split(path, '.'));
  }

  /** The keys of one '.'-free segment are clean. */
  lemma SegmentKeysClean(part: string)
    requires '.' !in part
    ensures ParseSegment(part).Ok? ==> KeysClean(ParseSegment(part).value)
  {
    if part != "" && '[' in part && ParseSegment(part).Ok? {
      var o := IndexOf(part, '[');
      IndexOfFirst(part, '[');
      assert forall j :: 0 <= j < o ==> part[..o][j] == part[j];
      assert ParseSegment(part).value == KeyPart(part[..o]) + [Idx(ParseSegment(part).value[|ParseSegment(part).value| - 1].index)];
    }
  }

  /** The token property of `KeysAreClean`, for a list of '.'-free segments. */
  lemma {:induction false} PartsKeysClean(parts: seq<string>)
    requires forall i :: 0 <= i < |parts| ==> '.' !in parts[i]
    ensures ParseParts(parts).Ok? ==> KeysClean(ParseParts(parts).value)
    decreases |parts|
  {
    if parts != [] && ParseParts(parts).Ok? {
      PartsKeysClean(parts[1..]);
      SegmentKeysClean(parts[0]);
      var ts: seq<Token> := ParseSegment(parts[0]).value;
      var rest: seq<Token> := ParseParts(parts[1..]).value;
      var all := ts + rest;
      assert ParseParts(parts).value == all;
      forall i | 0 <= i < |all| ensures all[i].Key? ==> CleanKey(all[i].key) {
        if i >= |ts| {
          assert all[i] == rest[i - |ts|];
        }
      }
    }
  }

  // ---- Round trip

  /** The decimal text of an index, with a leading '-' when negative. */
  function IndexText(i: int): (r: string)
    ensures '.' !in r && '[' !in r && ']' !in r
  {
    if i >= 0 then Itoa(i) else "-" + Itoa(-i)
  }

  /** `Atoi` reads back the text of every index an `int` can hold. */
  lemma AtoiIndexText(i: int)
    requires MinInt <= i <= MaxInt
    ensures Atoi(IndexText(i)) == Some(i)
  {
    if i >= 0 {
      AtoiItoa(i);
    } else {
      AtoiNegative(-i);
    }
  }

  /** The tokens a path can spell: keys non-empty and free of '.', '[' and ']'; indices within `int`. */
  predicate Expressible(ts: seq<Token>)
  {
    forall i :: 0 <= i < |ts| ==> ExpressibleToken(ts[i])
  }

  predicate ExpressibleToken(t: Token)
  {
    match t
    case Key(k) => k != "" && '.' !in k && '[' !in k && ']' !in k
    case Idx(i) => MinInt <= i <= MaxInt
  }

  /** The segments of the canonical path for `ts`: each key takes the index that follows it, if any. */
  function Segments(ts: seq<Token>): seq<string>
    decreases |ts|
  {
    if ts == [] then []
    else
      match ts[0]
      case Key(k) =>
        if |ts| >= 2 && ts[1].Idx? then [k + "[" + IndexText(ts[1].index) + "]"] + Segments(ts[2..])
        else [k] + Segments(ts[1..])
      case Idx(i) => ["[" + IndexText(i) + "]"] + Segments(ts[1..])
  }

  /** The canonical path for `ts`. */
  function Render(ts: seq<Token>): string
  {
    Join(Segments(ts), '.')
  }

  /** The canonical segments contain no '.'. */
  lemma {:induction false} SegmentsDotFree(ts: seq<Token>)
    requires Expressible(ts)
    ensures forall i :: 0 <= i < |Segments(ts)| ==> '.' !in Segments(ts)[i]
    decreases |ts|
  {
    if ts != [] {
      assert ExpressibleToken(ts[0]);
      var n := FirstSegmentLength(ts);
      ExpressibleSuffix(ts, n);
      SegmentsDotFree(ts[n..]);
      assert Segments(ts) == [Segments(ts)[0]] + Segments(ts[n..]);
    }
  }

  /** The number of tokens the first canonical segment spells. */
  function FirstSegmentLength(ts: seq<Token>): nat
    requires ts != []
  {
    if ts[0].Key? && |ts| >= 2 && ts[1].Idx? then 2 else 1
  }

  /** A canonical bracketed segment parses to its key part and its index. */
  lemma CanonicalSegment(part: string, k: string, i: int)
    requires part == k + "[" + IndexText(i) + "]"
    requires '[' !in k && ']' !in k && MinInt <= i <= MaxInt
    ensures ParseSegment(part) == Ok(KeyPart(k) + [Idx(i)])
  {
    AtoiIndexText(i);
    assert part == k + "[" + IndexText(i) + "]" + "";
    BracketedSegment(part, k, IndexText(i), "");
  }

  /** The first canonical segment parses to the tokens it spells. */
  lemma FirstSegmentParses(ts: seq<Token>)
    requires ts != [] && Expressible(ts)
    ensures ParseSegment(Segments(ts)[0]) == Ok(ts[..FirstSegmentLength(ts)])
  {
    assert ExpressibleToken(ts[0]);
    if FirstSegmentLength(ts) == 2 {
      assert ExpressibleToken(ts[1]);
      KeyIndexSegmentParses(ts);
    } else if ts[0].Key? {
      assert ParseSegment(Segments(ts)[0]) == Ok([ts[0]]);
      assert [ts[0]] == ts[..1];
    } else {
      IndexSegmentParses(ts);
    }
  }

  /** The text of the first canonical segment. */
  lemma FirstSegmentText(ts: seq<Token>)
    requires ts != []
    ensures ts[0].Key? && |ts| >= 2 && ts[1].Idx? ==> Segments(ts)[0] == ts[0].key + "[" + IndexText(ts[1].index) + "]"
    ensures ts[0].Idx? ==> Segments(ts)[0] == "" + "[" + IndexText(ts[0].index) + "]"
  {
  }

  /** The first canonical segment of a key followed by an index. */
  lemma KeyIndexSegmentParses(ts: seq<Token>)
    requires |ts| >= 2 && ts[0].Key? && ts[1].Idx?
    requires ExpressibleToken(ts[0]) && ExpressibleToken(ts[1])
    ensures ParseSegment(Segments(ts)[0]) == Ok(ts[..2])
  {
    FirstSegmentText(ts);
    CanonicalSegment(Segments(ts)[0], ts[0].key, ts[1].index);
    FirstTwo(ts);
  }

  lemma FirstTwo(ts: seq<Token>)
    requires |ts| >= 2 && ts[0].Key? && ts[0].key != ""
    ensures KeyPart(ts[0].key) + [ts[1]] == ts[..2]
  {
  }

  /** The first canonical segment of an index that does not follow a key. */
  lemma IndexSegmentParses(ts: seq<Token>)
    requires |ts| >= 1 && ts[0].Idx? && ExpressibleToken(ts[0])
    ensures ParseSegment(Segments(ts)[0]) == Ok(ts[..1])
  {
    var i := ts[0].index;
    assert KeyPart("") + [Idx(i)] == ts[..1];
    FirstSegmentText(ts);
    CanonicalSegment(Segments(ts)[0], "", i);
  }

  /** A suffix of an expressible token sequence is expressible. */
  lemma ExpressibleSuffix(ts: seq<Token>, n: nat)
    requires n <= |ts| && Expressible(ts)
    ensures Expressible(ts[n..])
  {
    forall i | 0 <= i < |ts[n..]| ensures ExpressibleToken(ts[n..][i]) {
      assert ts[n..][i] == ts[i + n];
    }
  }

  /** The canonical segments parse back to the tokens. */
  lemma {:induction false} SegmentsParse(ts: seq<Token>)
    requires Expressible(ts)
    ensures ParseParts(Segments(ts)) == Ok(ts)
    decreases |ts|
  {
    if ts != [] {
      var n := FirstSegmentLength(ts);
      ExpressibleSuffix(ts, n);
      SegmentsParse(ts[n..]);
      FirstSegmentParses(ts);
      SegmentsParseStep(ts, n);
    }
  }

  /** The first canonical segment and the rest, parsed, give the tokens back. */
  lemma SegmentsParseStep(ts: seq<Token>, n: nat)
    requires ts != [] && n == FirstSegmentLength(ts)
    requires ParseSegment(Segments(ts)[0]) == Ok(ts[..n]) && ParseParts(Segments(ts[n..])) == Ok(ts[n..])
    ensures ParseParts(Segments(ts)) == Ok(ts)
  {
    SegmentsTail(ts);
    ParsePartsFirst(Segments(ts), ts[..n], ts[n..]);
    PrefixSuffix(ts, n);
  }

  /** After the first canonical segment come the segments of the remaining tokens. */
  lemma SegmentsTail(ts: seq<Token>)
    requires ts != []
    ensures Segments(ts) != [] && Segments(ts)[1..] == Segments(ts[FirstSegmentLength(ts)..])
  {
  }

  /** Parts whose first part parses to `a` and the rest to `b` parse to `a + b`. */
  lemma ParsePartsFirst(parts: seq<string>, a: seq<Token>, b: seq<Token>)
    requires parts != [] && ParseSegment(parts[0]) == Ok(a) && ParseParts(parts[1..]) == Ok(b)
    ensures ParseParts(parts) == Ok(a + b)
  {
  }

  /** Parsing the canonical path of an expressible token sequence gives that sequence back. */
  lemma RoundTrip(ts: seq<Token>)
    requires Expressible(ts)
    ensures ParseSpec(Render(ts)) == Ok(ts)
  {
    if ts == [] {
      EmptySegmentsSkipped("", "");
    } else {
      SegmentsParse(ts);
      SegmentsDotFree(ts);
      SplitJoin(Segments(ts), '.');
    }
  }

  // ---- Worked examples

  /** `a.b[0].c` is the keys a and b, the index 0 and the key c. */
  lemma ExampleNested()
    ensures ParseSpec("a.b[0].c") == Ok([Key("a"), Key("b"), Idx(0), Key("c")])
  {
    var segs := ["a", "b[0]", "c"];
    assert Join(segs, '.') == "a.b[0].c" by {
      assert segs[1..] == ["b[0]", "c"];
      assert segs[1..][1..] == ["c"];
    }
    SplitJoin(segs, '.');
    ExampleNestedSegments();
  }

  /** The three segments of `a.b[0].c`, parsed. */
  lemma ExampleNestedSegments()
    ensures ParseParts(["a", "b[0]", "c"]) == Ok([Key("a"), Key("b"), Idx(0), Key("c")])
  {
    var segs := ["a", "b[0]", "c"];
    AtoiAccepts("0");
    assert DigitsValue("0") == 0;
    assert Atoi("0") == Some(0);
    BracketedSegment("b[0]", "b", "0", "");
    assert ParseSegment("b[0]") == Ok(KeyPart("b") + [Idx(0)]);
    assert KeyPart("b") + [Idx(0)] == [Key("b"), Idx(0)];
    assert segs[1..] == ["b[0]", "c"];
    assert segs[1..][1..] == ["c"];
    assert segs[1..][1..][1..] == [];
    assert ParseParts(["c"]) == Ok([Key("c")]) by {
      assert [Key("c")] + [] == [Key("c")];
    }
    assert ParseParts(["b[0]", "c"]) == Ok([Key("b"), Idx(0), Key("c")]) by {
      assert [Key("b"), Idx(0)] + [Key("c")] == [Key("b"), Idx(0), Key("c")];
    }
    assert [Key("a")] + [Key("b"), Idx(0), Key("c")] == [Key("a"), Key("b"), Idx(0), Key("c")];
  }

  /** A negative index is accepted by the grammar; it is the path engine that rejects or panics on it. */
  lemma ExampleNegativeIndex()
    ensures ParseSpec("a[-1]") == Ok([Key("a"), Idx(-1)])
  {
    SplitNoSeparator("a[-1]", '.');
    ExampleNegativeParts();
  }

  /** The single segment of `a[-1]`, as a list of segments. */
  lemma ExampleNegativeParts()
    ensures ParseParts(["a[-1]"]) == Ok([Key("a"), Idx(-1)])
  {
    ExampleNegativeSegment();
    assert ParseParts(["a[-1]"]) == Prepend([Key("a"), Idx(-1)], ParseParts([]));
    assert [Key("a"), Idx(-1)] + [] == [Key("a"), Idx(-1)];
  }

  /** The segment `a[-1]`, parsed. */
  lemma ExampleNegativeSegment()
    ensures ParseSegment("a[-1]") == Ok([Key("a"), Idx(-1)])
  {
    assert Itoa(1) == "1";
    assert IndexText(-1) == "-1";
    CanonicalSegment("a[-1]", "a", -1);
    assert KeyPart("a") + [Idx(-1)] == [Key("a"), Idx(-1)];
  }

  /** The path `a[0].b` as tokens. */
  lemma ExampleGrowthPath()
    ensures ParseSpec("a[0].b") == Ok([Key("a"), Idx(0), Key("b")])
  {
    var segs := ["a[0]", "b"];
    assert Join(segs, '.') == "a[0].b" by {
      assert segs[1..] == ["b"];
    }
    SplitJoin(segs, '.');
    ExampleGrowthSegments();
  }

  /** The two segments of `a[0].b`, parsed. */
  lemma ExampleGrowthSegments()
    ensures ParseParts(["a[0]", "b"]) == Ok([Key("a"), Idx(0), Key("b")])
  {
    var segs := ["a[0]", "b"];
    ExampleGrowthSegment();
    assert segs[1..] == ["b"] && segs[1..][1..] == [];
    assert ParseParts(["b"]) == Ok([Key("b")]) by {
      assert [Key("b")] + [] == [Key("b")];
    }
    assert [Key("a"), Idx(0)] + [Key("b")] == [Key("a"), Idx(0), Key("b")];
  }

  /** The segment `a[0]`, parsed. */
  lemma ExampleGrowthSegment()
    ensures ParseSegment("a[0]") == Ok([Key("a"), Idx(0)])
  {
    AtoiAccepts("0");
    assert DigitsValue("0") == 0;
    BracketedSegment("a[0]", "a", "0", "");
    assert KeyPart("a") + [Idx(0)] == [Key("a"), Idx(0)];
  }

  /** A path with no '.' and no '[' is the one key it spells, even when it holds ']'. */
  lemma PlainPath(p: string)
    requires p != [] && '.' !in p && '[' !in p
    ensures ParseSpec(p) == Ok([Key(p)])
  {
    SplitNoSeparator(p, '.');
    assert ParseSegment(p) == Ok([Key(p)]);
    assert [p][1..] == [];
    assert ParseParts([p]) == Prepend([Key(p)], ParseParts([]));
    assert [Key(p)] + [] == [Key(p)];
  }

  /** An index that is empty or not a number is rejected. */
  lemma ExampleBadIndex()
    ensures ParseSegment("a[]") == Err(InvalidIndex(""))
    ensures ParseSegment("a[x]") == Err(InvalidIndex("x"))
  {
    BracketedSegment("a[]", "a", "", "");
    BracketedSegment("a[x]", "a", "x", "");
  }

  /** A second index after the first ']' is rejected. */
  lemma ExampleSecondIndex()
    ensures ParseSegment("a[0][1]") == Err(UnsupportedFormat("a[0][1]"))
  {
    AtoiAccepts("0");
    assert DigitsValue("0") == 0;
    BracketedSegment("a[0][1]", "a", "0", "[1]");
  }

  /** Text after the first ']' is rejected. */
  lemma ExampleTrailing()
    ensures ParseSegment("a[0]x") == Err(UnsupportedFormat("a[0]x"))
  {
    AtoiAccepts("0");
    assert DigitsValue("0") == 0;
    BracketedSegment("a[0]x", "a", "0", "x");
  }

  /** A ']' that is missing, or that comes before the '[', is rejected. */
  lemma ExampleUnclosed()
    ensures ParseSegment("a[0") == Err(MissingBracket("a[0"))
    ensures ParseSegment("a]0[") == Err(MissingBracket("a]0["))
  {
    IndexOfFirst("a[0", ']');
    IndexOfFirst("a]0[", ']');
    IndexOfAt("a]0[", ']', 1);
    IndexOfAt("a]0[", '[', 3);
  }
}
