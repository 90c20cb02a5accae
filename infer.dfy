/**
  Type inference for the text given to `set` (`internal/utils/value.go`): an
  integer if `strconv.Atoi` accepts it, else a float if `strconv.ParseFloat`
  does, else a boolean for exactly `true` / `false`, else a list for text in
  square brackets (elements split at ',' and inferred in turn), else the text
  itself as a string.

  `strconv.ParseFloat` is not modelled: the inference takes as a parameter
  `isFloat`, the set of texts it accepts, and the properties below assume only
  `FloatSound(isFloat)`, a necessary condition met by Go's float syntax.
*/
module Inference {
  import opened Base
  import opened GoStrings
  import opened Document

  /** Which texts `strconv.ParseFloat(s, 64)` accepts without error. */
  type FloatParser = string -> bool

  /** The characters any text accepted by `strconv.ParseFloat` is made of. */
  predicate FloatChar(c: char)
  {
    IsDigit(c) || ('a' <= c <= 'z') || ('A' <= c <= 'Z') || c == '+' || c == '-' || c == '.' || c == '_'
  }

  /**
    The shape of every text `strconv.ParseFloat` accepts: non-empty, made of
    float characters, and after an optional sign beginning with a digit, a '.',
    or the first letter of "inf", "infinity" or "nan" in either case.
  */
  predicate FloatShaped(s: string)
  {
    s != [] && (forall i :: 0 <= i < |s| ==> FloatChar(s[i])) &&
    var body := if s[0] == '+' || s[0] == '-' then s[1..] else s;
    body != [] && (IsDigit(body[0]) || body[0] in {'.', 'i', 'I', 'n', 'N'})
  }

  /** The float parser accepts only float-shaped texts. */
  ghost predicate FloatSound(isFloat: FloatParser)
  {
    forall s :: isFloat(s) ==> FloatShaped(s)
  }

  /** The cut set of `strings.Trim(s, "[]")`. */
  const Brackets: set<char> := {'[', ']'}

  /** Text that `InferValue` reads as a list: it starts with '[' and ends with ']'. */
  predicate Bracketed(s: string)
  {
    HasPrefix(s, '[') && HasSuffix(s, ']')
  }

  /** What `InferValue(s)` returns. */
  function Infer(s: string, isFloat: FloatParser): (r: Value)
    ensures r != VNil
    ensures r.VInt? ==> Atoi(s) == Some(r.i)
    ensures r.VFloat? ==> isFloat(s) && r.raw == s
    ensures r.VBool? ==> s == (if r.b then "true" else "false")
    ensures r.VStr? ==> r.s == s
    decreases |s|
  {
    match Atoi(s)
    case Some(i) => VInt(i)
    case None =>
      if isFloat(s) then VFloat(s)
      else if s == "true" then VBool(true)
      else if s == "false" then VBool(false)
      else if Bracketed(s) then
        var inner := Trim(s, Brackets);
        if inner == "" then VArr([])
        else
          var parts := Split(inner, ',');
          ElementsShorter(s, inner, parts);
          VArr(seq(|parts|, k requires 0 <= k < |parts| => Infer(TrimSpace(parts[k]), isFloat)))
      else VStr(s)
  }

  /** Every list element is inferred from text shorter than the list's. */
  lemma ElementsShorter(s: string, inner: string, parts: seq<string>)
    requires Bracketed(s) && inner == Trim(s, Brackets) && parts == Split(inner, ',')
    ensures forall k :: 0 <= k < |parts| ==> |TrimSpace(parts[k])| < |s|
  {
    TrimShortens(s, Brackets);
    SplitPieceLengths(inner, ',');
  }

  /** `InferValue` (value.go): the rules tried in order; list elements inferred by a loop. */
  method InferValue(s: string, isFloat: FloatParser) returns (v: Value)
    ensures v == Infer(s, isFloat)
    decreases |s|, 1
  {
    var i := Atoi(s);
    if i.Some? {
      return VInt(i.value);
    }
    if isFloat(s) {
      return VFloat(s);
    }
    if s == "true" {
      return VBool(true);
    }
    if s == "false" {
      return VBool(false);
    }
    if HasPrefix(s, '[') && HasSuffix(s, ']') {
      var inner := Trim(s, Brackets);
      if inner == "" {
        return VArr([]);
      }
      var parts := Split(inner, ',');
      ElementsShorter(s, inner, parts);
      var arr := InferElements(s, parts, isFloat);
      InferredList(s, parts, arr, isFloat);
      return VArr(arr);
    }
    return VStr(s);
  }

  /** The loop of `InferValue` over the comma-separated pieces of a list. */
  method InferElements(s: string, parts: seq<string>, isFloat: FloatParser) returns (arr: seq<Value>)
    requires forall k :: 0 <= k < |parts| ==> |TrimSpace(parts[k])| < |s|
    ensures |arr| == |parts| && forall j :: 0 <= j < |parts| ==> arr[j] == Infer(TrimSpace(parts[j]), isFloat)
    decreases |s|, 0
  {
    arr := [];
    for k := 0 to |parts|
      invariant |arr| == k
      invariant forall j :: 0 <= j < k ==> arr[j] == Infer(TrimSpace(parts[j]), isFloat)
    {
      var e := InferValue(TrimSpace(parts[k]), isFloat);
      arr := arr + [e];
    }
  }

  /** The elements the loop collects make up the inferred list. */
  lemma InferredList(s: string, parts: seq<string>, arr: seq<Value>, isFloat: FloatParser)
    requires Atoi(s).None? && !isFloat(s) && s != "true" && s != "false" && Bracketed(s)
    requires Trim(s, Brackets) != "" && parts == Split(Trim(s, Brackets), ',')
    requires |arr| == |parts| && forall j :: 0 <= j < |parts| ==> arr[j] == Infer(TrimSpace(parts[j]), isFloat)
    ensures VArr(arr) == Infer(s, isFloat)
  {
    ElementsShorter(s, Trim(s, Brackets), parts);
    assert arr == seq(|parts|, k requires 0 <= k < |parts| => Infer(TrimSpace(parts[k]), isFloat));
  }

  // ---- Properties of the inference

  /** The result is an integer exactly when `Atoi` accepts the text, and it is the number `Atoi` reads. */
  lemma IntegerExactly(s: string, isFloat: FloatParser)
    ensures Infer(s, isFloat).VInt? <==> Atoi(s).Some?
    ensures Atoi(s).Some? ==> Infer(s, isFloat) == VInt(Atoi(s).value)
  {
  }

  /**
    The result is a float exactly when `Atoi` rejects the text and the float
    parser accepts it; the float keeps the text. This rule comes second.
  */
  lemma FloatExactly(s: string, isFloat: FloatParser)
    ensures Infer(s, isFloat).VFloat? <==> Atoi(s).None? && isFloat(s)
    ensures Atoi(s).None? && isFloat(s) ==> Infer(s, isFloat) == VFloat(s)
  {
  }

  /** The text of a boolean. */
  function BoolText(b: bool): string
  {
    if b then "true" else "false"
  }

  /** Only the exact, lower-case words `true` and `false` become booleans. */
  lemma BoolExactly(s: string, isFloat: FloatParser, b: bool)
    requires FloatSound(isFloat)
    ensures Infer(s, isFloat) == VBool(b) <==> s == BoolText(b)
  {
    if s == BoolText(b) {
      assert !FloatShaped(s) by {
        assert s[0] == (if b then 't' else 'f');
      }
      assert Atoi(s).None? by {
        assert !IsDigit(s[0]);
      }
    }
  }

  /** The characters a text accepted by `Atoi`, by the float parser or as a list can begin with. */
  predicate NumberOrListStart(c: char)
  {
    IsDigit(c) || c in {'+', '-', '.', 'i', 'I', 'n', 'N', '['}
  }

  /**
    Text that cannot begin a number or a list and is not a boolean word stays
    the very same string: no trimming, no unquoting, no case folding.
  */
  lemma WordsStayStrings(s: string, isFloat: FloatParser)
    requires FloatSound(isFloat)
    requires s == [] || !NumberOrListStart(s[0])
    requires s != "true" && s != "false"
    ensures Infer(s, isFloat) == VStr(s)
  {
    if s != [] {
      assert !IsDigit(s[0]);
      assert !FloatShaped(s);
    }
  }

  /**
    Bracketed text is always a list. Its elements come from the text with all
    leading and trailing brackets trimmed: none when that is empty, else one
    per ','-separated piece plus one, each piece trimmed of white space and
    inferred in turn.
  */
  lemma ListElements(s: string, isFloat: FloatParser)
    requires FloatSound(isFloat) && Bracketed(s)
    ensures Infer(s, isFloat).VArr?
    ensures var inner := Trim(s, Brackets);
      var es := Infer(s, isFloat).elems;
      (inner == "" ==> es == []) &&
      (inner != "" ==>
        |es| == Count(inner, ',') + 1 &&
        forall k :: 0 <= k < |es| ==> es[k] == Infer(TrimSpace(Split(inner, ',')[k]), isFloat))
  {
    assert !IsDigit(s[0]);
    assert !FloatChar(s[0]);
    assert !FloatShaped(s);
    SplitCount(Trim(s, Brackets), ',');
  }

  // ---- Worked examples

  /** Capitalised booleans are strings. */
  lemma ExampleCapitalisedBool(isFloat: FloatParser)
    requires FloatSound(isFloat)
    ensures Infer("True", isFloat) == VStr("True")
  {
    WordsStayStrings("True", isFloat);
  }

  /** Nested brackets are trimmed away together: `[[1,2]]` is the flat list 1, 2. */
  lemma ExampleFlattenedList(isFloat: FloatParser)
    requires FloatSound(isFloat)
    ensures Infer("[[1,2]]", isFloat) == VArr([VInt(1), VInt(2)])
  {
    ExampleFlattenedPieces();
    ExampleDigits(isFloat);
    ListElements("[[1,2]]", isFloat);
    var es := Infer("[[1,2]]", isFloat).elems;
    assert |es| == 2;
    assert es[0] == VInt(1) && es[1] == VInt(2);
  }

  /** The pieces of `[[1,2]]`. */
  lemma ExampleFlattenedPieces()
    ensures Trim("[[1,2]]", Brackets) == "1,2"
    ensures Count("1,2", ',') == 1
    ensures Split("1,2", ',') == ["1", "2"]
    ensures TrimSpace("1") == "1" && TrimSpace("2") == "2"
  {
    ExampleFlattenedTrim();
    ExampleFlattenedSplit();
  }

  /** `strings.Split("1,2", ",")`. */
  lemma ExampleFlattenedSplit()
    ensures Count("1,2", ',') == 1
    ensures Split("1,2", ',') == ["1", "2"]
  {
    assert Join(["1", "2"], ',') == "1,2";
    SplitJoin(["1", "2"], ',');
    SplitCount("1,2", ',');
  }

  /** `strings.Trim("[[1,2]]", "[]")`, step by step. */
  lemma ExampleFlattenedTrim()
    ensures Trim("[[1,2]]", Brackets) == "1,2"
  {
    var s := "[[1,2]]";
    assert s[1..] == "[1,2]]";
    assert s[1..][1..] == "1,2]]";
    assert TrimLeft("1,2]]", Brackets) == "1,2]]";
    assert TrimLeft(s, Brackets) == "1,2]]";
    var l := "1,2]]";
    assert l[..4] == "1,2]";
    assert l[..4][..3] == "1,2";
    assert TrimRight("1,2", Brackets) == "1,2";
  }

  /** Single digits are integers. */
  lemma ExampleDigits(isFloat: FloatParser)
    ensures Infer("1", isFloat) == VInt(1) && Infer("2", isFloat) == VInt(2)
  {
    AtoiAccepts("1");
    AtoiAccepts("2");
    assert DigitsValue("1") == 1;
    assert DigitsValue("2") == 2;
  }

  /** Signed integers: `-7` and `+3` are read by `Atoi`, sign included. */
  lemma ExampleSigned(isFloat: FloatParser)
    ensures Infer("-7", isFloat) == VInt(-7) && Infer("+3", isFloat) == VInt(3)
  {
    assert "-7"[1..] == "7" && "+3"[1..] == "3";
    assert AllDigits("7") && DigitsValue("7") == 7;
    assert AllDigits("3") && DigitsValue("3") == 3;
    assert Atoi("-7") == Some(-7);
    assert Atoi("+3") == Some(3);
  }

  /** A float text that `Atoi` rejects, `1.5`, is a float when the float parser accepts it, and a string otherwise. */
  lemma ExampleFloat(isFloat: FloatParser)
    ensures isFloat("1.5") ==> Infer("1.5", isFloat) == VFloat("1.5")
    ensures !isFloat("1.5") ==> Infer("1.5", isFloat) == VStr("1.5")
  {
    assert !AllDigits("1.5") by {
      assert !IsDigit("1.5"[1]);
    }
    assert Atoi("1.5").None?;
  }

  /** A mixed list: `[1, 2, abc]` is 1, 2 and the string `abc`, the pieces trimmed of their spaces. */
  lemma ExampleMixedList(isFloat: FloatParser)
    requires FloatSound(isFloat)
    ensures Infer("[1, 2, abc]", isFloat) == VArr([VInt(1), VInt(2), VStr("abc")])
  {
    ExampleMixedPieces();
    ExampleDigits(isFloat);
    WordsStayStrings("abc", isFloat);
    ThreeElements("[1, 2, abc]", "1, 2, abc", ["1", " 2", " abc"], isFloat);
  }

  /** A list whose body splits into three pieces has the three inferred pieces as elements. */
  lemma ThreeElements(s: string, inner: string, parts: seq<string>, isFloat: FloatParser)
    requires FloatSound(isFloat) && Bracketed(s) && Trim(s, Brackets) == inner && inner != ""
    requires Split(inner, ',') == parts && |parts| == 3
    ensures Infer(s, isFloat) == VArr([Infer(TrimSpace(parts[0]), isFloat), Infer(TrimSpace(parts[1]), isFloat), Infer(TrimSpace(parts[2]), isFloat)])
  {
    ListElements(s, isFloat);
    SplitCount(inner, ',');
  }

  /** The pieces of `[1, 2, abc]`. */
  lemma ExampleMixedPieces()
    ensures Trim("[1, 2, abc]", Brackets) == "1, 2, abc"
    ensures Count("1, 2, abc", ',') == 2
    ensures Split("1, 2, abc", ',') == ["1", " 2", " abc"]
    ensures TrimSpace("1") == "1" && TrimSpace(" 2") == "2" && TrimSpace(" abc") == "abc"
  {
    ExampleMixedTrim();
    ExampleMixedSplit();
    ExampleMixedSpaces();
  }

  /** `strings.Trim("[1, 2, abc]", "[]")`. */
  lemma ExampleMixedTrim()
    ensures Trim("[1, 2, abc]", Brackets) == "1, 2, abc"
  {
    var s := "[1, 2, abc]";
    assert s[1..] == "1, 2, abc]";
    assert TrimLeft("1, 2, abc]", Brackets) == "1, 2, abc]";
    var l := "1, 2, abc]";
    assert l[..|l| - 1] == "1, 2, abc";
    assert TrimRight("1, 2, abc", Brackets) == "1, 2, abc";
  }

  /** `strings.Split("1, 2, abc", ",")`. */
  lemma ExampleMixedSplit()
    ensures Count("1, 2, abc", ',') == 2
    ensures Split("1, 2, abc", ',') == ["1", " 2", " abc"]
  {
    var parts := ["1", " 2", " abc"];
    assert Join(parts, ',') == "1, 2, abc" by {
      assert parts[1..] == [" 2", " abc"];
      assert parts[1..][1..] == [" abc"];
    }
    SplitJoin(parts, ',');
    SplitCount("1, 2, abc", ',');
  }

  /** `strings.TrimSpace` of the three pieces. */
  lemma ExampleMixedSpaces()
    ensures TrimSpace("1") == "1" && TrimSpace(" 2") == "2" && TrimSpace(" abc") == "abc"
  {
    assert " 2"[1..] == "2" && " abc"[1..] == "abc";
    assert TrimLeft(" 2", Spaces) == "2" && TrimLeft(" abc", Spaces) == "abc";
  }

  /** Brackets with nothing but brackets inside are the empty list. */
  lemma ExampleEmptyLists(isFloat: FloatParser)
    requires FloatSound(isFloat)
    ensures Infer("[]", isFloat) == VArr([])
    ensures Infer("[[]]", isFloat) == VArr([])
  {
    assert Trim("[]", Brackets) == "";
    assert Trim("[[]]", Brackets) == "" by {
      assert TrimLeft("[[]]", Brackets) == "";
    }
    ListElements("[]", isFloat);
    ListElements("[[]]", isFloat);
  }

  /** A blank list body is one element, the empty string. */
  lemma ExampleBlankList(isFloat: FloatParser)
    requires FloatSound(isFloat)
    ensures Infer("[ ]", isFloat) == VArr([VStr("")])
  {
    ExampleBlankPieces();
    WordsStayStrings("", isFloat);
    ListElements("[ ]", isFloat);
    var es := Infer("[ ]", isFloat).elems;
    assert |es| == 1;
    assert es[0] == VStr("");
  }

  /** The pieces of `[ ]`. */
  lemma ExampleBlankPieces()
    ensures Trim("[ ]", Brackets) == " "
    ensures Count(" ", ',') == 0
    ensures Split(" ", ',') == [" "]
    ensures TrimSpace(" ") == ""
  {
    var s := "[ ]";
    assert s[1..] == " ]";
    assert TrimLeft(" ]", Brackets) == " ]";
    assert " ]"[..1] == " ";
    assert TrimRight(" ", Brackets) == " ";
    SplitNoSeparator(" ", ',');
    SplitCount(" ", ',');
    assert " "[1..] == "";
    assert TrimLeft(" ", Spaces) == "";
  }
}
