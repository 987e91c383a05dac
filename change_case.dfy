/** The case-conversion helpers of helper/changeCase.js. Each takes a value
    that may be `undefined`; a falsy argument (undefined or the empty string)
    is returned as it was by `capitalizeWords` and turned into `undefined` by
    all the others. Case mapping covers ASCII letters only. */
module ChangeCase {
  import opened Common
  import opened Text

  /** JavaScript truthiness of a string-or-undefined argument. */
  predicate Truthy(v: Option<string>) {
    v.Some? && v.value != ""
  }

  /** `str.replace(/\.$/, '')`: one trailing full stop removed, if there is one. */
  function DropTrailingDot(s: string): string {
    if s != [] && s[|s| - 1] == '.' then s[..|s| - 1] else s
  }

  /** `word.charAt(0).toUpperCase() + word.slice(1)`. */
  function CapitalizeWord(w: string): string {
    if w == [] then [] else [UpperChar(w[0])] + w[1..]
  }

  /** `words.map(word => CapitalizeWord(word))`. */
  function CapitalizeEach(ws: seq<string>): (r: seq<string>)
    ensures |r| == |ws|
    ensures forall k :: 0 <= k < |ws| ==> r[k] == CapitalizeWord(ws[k])
  {
    if ws == [] then [] else [CapitalizeWord(ws[0])] + CapitalizeEach(ws[1..])
  }

  /** `words.map((word, index) => index === 0 ? word : CapitalizeWord(word))`. */
  function CamelWords(ws: seq<string>): seq<string> {
    if ws == [] then [] else [ws[0]] + CapitalizeEach(ws[1..])
  }

  /** Whether position `i` of `u` begins a space-separated word; position 0
      does so exactly when `atStart` holds. */
  predicate WordStart(u: string, i: nat, atStart: bool)
    requires i < |u|
  {
    if i == 0 then atStart else u[i - 1] == ' '
  }

  /** Reference definition: `u` with the first character of every word uppercased. */
  ghost function Titled(u: string, atStart: bool): (r: string)
    ensures |r| == |u|
    ensures forall i :: 0 <= i < |u| ==> r[i] == if WordStart(u, i, atStart) then UpperChar(u[i]) else u[i]
  {
    if u == [] then [] else [if atStart then UpperChar(u[0]) else u[0]] + Titled(u[1..], u[0] == ' ')
  }

  /** The word mapping shared by capitalizeWords (`capFirst`) and toCamelCase (not `capFirst`). */
  ghost function FirstThen(ws: seq<string>, capFirst: bool): seq<string> {
    if ws == [] then [] else [if capFirst then CapitalizeWord(ws[0]) else ws[0]] + CapitalizeEach(ws[1..])
  }

  /** Splitting on spaces, capitalising the words and joining with spaces
      uppercases exactly the first character of every word. */
  lemma {:induction false} SpaceJoinTitles(u: string, capFirst: bool)
    ensures Join(FirstThen(Split(u, ' '), capFirst), " ") == Titled(u, capFirst)
  {
    if u != [] {
      var rest := Split(u[1..], ' ');
      if u[0] == ' ' {
        SpaceJoinTitles(u[1..], true);
        assert FirstThen(Split(u, ' '), capFirst) == [""] + FirstThen(rest, true);
        JoinConsEmpty(FirstThen(rest, true), " ");
      } else {
        SpaceJoinTitles(u[1..], false);
        var c := if capFirst then UpperChar(u[0]) else u[0];
        var ft := FirstThen(rest, false);
        assert ([u[0]] + rest[0])[1..] == rest[0];
        assert FirstThen(Split(u, ' '), capFirst) == [[c] + ft[0]] + ft[1..];
        JoinConsChar(c, ft, " ");
      }
    }
  }

  /** Joining the same words without a separator gives the titled text with its spaces removed. */
  lemma {:induction false} EmptyJoinTitles(u: string, capFirst: bool)
    ensures Join(FirstThen(Split(u, ' '), capFirst), "") == Without(Titled(u, capFirst), ' ')
  {
    if u != [] {
      var rest := Split(u[1..], ' ');
      var t := Titled(u, capFirst);
      assert t == [t[0]] + Titled(u[1..], u[0] == ' ');
      if u[0] == ' ' {
        EmptyJoinTitles(u[1..], true);
        assert FirstThen(Split(u, ' '), capFirst) == [""] + FirstThen(rest, true);
        JoinConsEmpty(FirstThen(rest, true), "");
        assert t[0] == ' ';
        assert Without(t, ' ') == Without(t[1..], ' ');
      } else {
        EmptyJoinTitles(u[1..], false);
        var c := if capFirst then UpperChar(u[0]) else u[0];
        var ft := FirstThen(rest, false);
        assert ([u[0]] + rest[0])[1..] == rest[0];
        assert FirstThen(Split(u, ' '), capFirst) == [[c] + ft[0]] + ft[1..];
        JoinConsChar(c, ft, "");
        assert t[0] == c && c != ' ';
        assert Without(t, ' ') == [c] + Without(t[1..], ' ');
      }
    }
  }

  /** The character `capitalizeWords` produces at position `i` of the trimmed text `t`. */
  function TitleCaseAt(t: string, i: nat): char
    requires i < |t|
  {
    if i == 0 || t[i - 1] == ' ' then UpperChar(t[i]) else LowerChar(t[i])
  }

  lemma TitledLower(t: string)
    ensures forall i :: 0 <= i < |t| ==> Titled(Lower(t), true)[i] == TitleCaseAt(t, i)
  {
    var u := Lower(t);
    forall i | 0 <= i < |t|
      ensures Titled(u, true)[i] == TitleCaseAt(t, i)
    {
      CaseMapFacts(t[i]);
      if i > 0 {
        CaseMapFacts(t[i - 1]);
      }
    }
  }

  /** Lines 5-12 of capitalizeWords on a truthy string: drop one trailing '.',
      trim, lowercase, then uppercase the first character of each
      single-space-separated word. Spaces are kept, so the length is that of
      the trimmed text. */
  function CapitalizeText(s: string): (r: string)
    ensures |r| == |Trim(DropTrailingDot(s))|
    ensures forall i :: 0 <= i < |r| ==> r[i] == TitleCaseAt(Trim(DropTrailingDot(s)), i)
  {
    var t := Trim(DropTrailingDot(s));
    var u := Lower(t);
    assert CapitalizeEach(Split(u, ' ')) == FirstThen(Split(u, ' '), true);
    SpaceJoinTitles(u, true);
    TitledLower(t);
    Join(CapitalizeEach(Split(u, ' ')), " ")
  }

  /** The result of capitalizeWords has no whitespace at either end, so a
      schema `trim` setter leaves it unchanged. */
  lemma CapitalizeTextTrimmed(s: string)
    ensures Trim(CapitalizeText(s)) == CapitalizeText(s)
  {
    var t := Trim(DropTrailingDot(s));
    var r := CapitalizeText(s);
    if r != [] {
      CaseMapFacts(t[0]);
      CaseMapFacts(t[|t| - 1]);
      assert !IsWhitespace(r[0]);
      assert !IsWhitespace(r[|r| - 1]);
    }
  }

  /** `capitalizeWords(str)`: a falsy argument comes back unchanged. */
  function CapitalizeWords(v: Option<string>): (r: Option<string>)
    ensures !Truthy(v) ==> r == v
    ensures v.Some? ==> r.Some?
    ensures Truthy(v) ==> |r.value| == |Trim(DropTrailingDot(v.value))|
    ensures Truthy(v) ==> forall i :: 0 <= i < |r.value| ==> r.value[i] == TitleCaseAt(Trim(DropTrailingDot(v.value)), i)
  {
    if Truthy(v) then Some(CapitalizeText(v.value)) else v
  }

  /** `sentenceCase(str)`: first character uppercased, the rest lowercased;
      `undefined` for a falsy argument. */
  function SentenceCase(v: Option<string>): (r: Option<string>)
    ensures r.Some? <==> Truthy(v)
    ensures r.Some? ==> |r.value| == |v.value| && r.value[0] == UpperChar(v.value[0])
    ensures r.Some? ==> forall i :: 1 <= i < |r.value| ==> r.value[i] == LowerChar(v.value[i])
  {
    if Truthy(v) then Some([UpperChar(v.value[0])] + Lower(v.value[1..])) else None
  }

  lemma SentenceCaseIdempotent(v: Option<string>)
    ensures SentenceCase(SentenceCase(v)) == SentenceCase(v)
  {
    var r := SentenceCase(v);
    if r.Some? {
      var s := v.value;
      var rr := SentenceCase(r);
      CaseMapFacts(s[0]);
      forall i | 1 <= i < |s|
        ensures rr.value[i] == r.value[i]
      {
        CaseMapFacts(s[i]);
      }
      assert rr.value == r.value;
    }
  }

  lemma {:induction false} CountSpacesLower(s: string)
    ensures Count(Lower(s), ' ') == Count(s, ' ')
  {
    if s != [] {
      CountSpacesLower(s[1..]);
      CaseMapFacts(s[0]);
      assert Lower(s)[1..] == Lower(s[1..]);
    }
  }

  lemma {:induction false} CountSpacesTitled(u: string, capFirst: bool)
    ensures Count(Titled(u, capFirst), ' ') == Count(u, ' ')
  {
    if u != [] {
      CountSpacesTitled(u[1..], u[0] == ' ');
      CaseMapFacts(u[0]);
      var t := Titled(u, capFirst);
      assert t[1..] == Titled(u[1..], u[0] == ' ');
    }
  }

  /** `toCamelCase(str)`: lowercase, split on single spaces, capitalise every
      word but the first and join without separator. */
  function ToCamelCase(v: Option<string>): (r: Option<string>)
    ensures r.Some? <==> Truthy(v)
    ensures r.Some? ==> r.value == Without(Titled(Lower(v.value), false), ' ')
    ensures r.Some? ==> ' ' !in r.value && |r.value| == |v.value| - Count(v.value, ' ')
  {
    if Truthy(v) then
      var u := Lower(v.value);
      assert CamelWords(Split(u, ' ')) == FirstThen(Split(u, ' '), false);
      EmptyJoinTitles(u, false);
      CountSpacesTitled(u, false);
      CountSpacesLower(v.value);
      Some(Join(CamelWords(Split(u, ' ')), ""))
    else None
  }

  /** `s.replace(/\s+/g, sep)`: every maximal run of whitespace becomes one `sep`. */
  function CollapseWhitespace(s: string, sep: char): (r: string)
    requires !IsWhitespace(sep)
    ensures NoWhitespace(r)
    ensures |r| <= |s| && (r == []) == (s == [])
    ensures IsLowerCase(s) && LowerChar(sep) == sep ==> IsLowerCase(r)
    decreases |s|
  {
    if s == [] then []
    else if IsWhitespace(s[0]) then
      var rest := TrimStart(s);
      assert rest == TrimStart(s[1..]);
      [sep] + CollapseWhitespace(rest, sep)
    else [s[0]] + CollapseWhitespace(s[1..], sep)
  }

  lemma {:induction false} CollapseNoWhitespace(s: string, sep: char)
    requires !IsWhitespace(sep) && NoWhitespace(s)
    ensures CollapseWhitespace(s, sep) == s
  {
    if s != [] {
      CollapseNoWhitespace(s[1..], sep);
    }
  }

  lemma {:induction false} TrimStartAfterRun(w: string, b: string)
    requires forall i :: 0 <= i < |w| ==> IsWhitespace(w[i])
    requires b == [] || !IsWhitespace(b[0])
    ensures TrimStart(w + b) == b
  {
    if w == [] {
      assert w + b == b;
    } else {
      assert (w + b)[1..] == w[1..] + b;
      TrimStartAfterRun(w[1..], b);
    }
  }

  lemma {:induction false} TrimStartConcat(a: string, x: string)
    requires a != [] && !IsWhitespace(a[|a| - 1])
    ensures TrimStart(a + x) == TrimStart(a) + x
  {
    if IsWhitespace(a[0]) {
      assert (a + x)[1..] == a[1..] + x;
      TrimStartConcat(a[1..], x);
    }
  }

  /** One maximal whitespace run `w` between `a` and `b` becomes exactly one separator. */
  lemma {:induction false} CollapseRun(a: string, w: string, b: string, sep: char)
    requires !IsWhitespace(sep)
    requires a == [] || !IsWhitespace(a[|a| - 1])
    requires w != [] && forall i :: 0 <= i < |w| ==> IsWhitespace(w[i])
    requires b == [] || !IsWhitespace(b[0])
    ensures CollapseWhitespace(a + w + b, sep) == CollapseWhitespace(a, sep) + [sep] + CollapseWhitespace(b, sep)
    decreases |a|, 1
  {
    if a == [] {
      assert a + w + b == w + b;
      CollapseRunFirst(w, b, sep);
    } else {
      CollapseRunInduct(a, w, b, sep);
    }
  }

  /** The inductive case of `CollapseRun`, for a non-empty `a`. */
  lemma {:induction false} CollapseRunInduct(a: string, w: string, b: string, sep: char)
    requires !IsWhitespace(sep)
    requires a != [] && !IsWhitespace(a[|a| - 1])
    requires w != [] && forall i :: 0 <= i < |w| ==> IsWhitespace(w[i])
    requires b == [] || !IsWhitespace(b[0])
    ensures CollapseWhitespace(a + w + b, sep) == CollapseWhitespace(a, sep) + [sep] + CollapseWhitespace(b, sep)
    decreases |a|, 0
  {
    var a' := if IsWhitespace(a[0]) then TrimStart(a) else a[1..];
    RestOfText(a, a');
    CollapseRun(a', w, b, sep);
    CollapseRunCons(a, a', w, b, sep);
  }

  /** What is left of `a` once its first character or leading whitespace run is consumed. */
  lemma RestOfText(a: string, a': string)
    requires a != [] && !IsWhitespace(a[|a| - 1])
    requires a' == if IsWhitespace(a[0]) then TrimStart(a) else a[1..]
    ensures |a'| < |a|
    ensures a' == [] || !IsWhitespace(a'[|a'| - 1])
  {
    if IsWhitespace(a[0]) {
      assert a' == a[|a| - |a'|..];
    }
  }

  /** The inductive step of `CollapseRun`: the first character (or leading run) of `a`
      is produced in front of the result for the rest of `a`. */
  lemma CollapseRunCons(a: string, a': string, w: string, b: string, sep: char)
    requires !IsWhitespace(sep)
    requires a != [] && !IsWhitespace(a[|a| - 1])
    requires a' == if IsWhitespace(a[0]) then TrimStart(a) else a[1..]
    requires CollapseWhitespace(a' + w + b, sep) == CollapseWhitespace(a', sep) + [sep] + CollapseWhitespace(b, sep)
    ensures CollapseWhitespace(a + w + b, sep) == CollapseWhitespace(a, sep) + [sep] + CollapseWhitespace(b, sep)
  {
    CollapseRunStep(a, a', w + b, sep);
    Assoc3(a, w, b);
    Assoc3(a', w, b);
    SpliceSeparator(CollapseWhitespace(a + w + b, sep), CollapseWhitespace(a' + w + b, sep),
                    CollapseWhitespace(a, sep), CollapseWhitespace(a', sep), CollapseWhitespace(b, sep), sep);
  }

  lemma SpliceSeparator(x: string, y: string, ca: string, ca': string, cb: string, sep: char)
    requires |ca| >= 1
    requires x == ca[..1] + y && y == ca' + [sep] + cb && ca == ca[..1] + ca'
    ensures x == ca + [sep] + cb
  {
    ConcatAssoc(ca[..1], ca', [sep], cb);
  }

  /** One unfolding of `CollapseWhitespace` on `a + x`, given the result for the rest of `a`. */
  lemma CollapseRunStep(a: string, a': string, x: string, sep: char)
    requires !IsWhitespace(sep)
    requires a != [] && !IsWhitespace(a[|a| - 1])
    requires a' == if IsWhitespace(a[0]) then TrimStart(a) else a[1..]
    ensures CollapseWhitespace(a + x, sep)
            == CollapseWhitespace(a, sep)[..1] + CollapseWhitespace(a' + x, sep)
    ensures CollapseWhitespace(a, sep) == CollapseWhitespace(a, sep)[..1] + CollapseWhitespace(a', sep)
  {
    if IsWhitespace(a[0]) {
      CollapseLeadingRun(a, x, sep);
    } else {
      CollapseLeadingChar(a, x, sep);
    }
  }

  lemma Assoc3(x: string, y: string, z: string)
    ensures x + y + z == x + (y + z)
  {
  }

  lemma ConcatAssoc(x: string, y: string, z: string, t: string)
    ensures x + (y + z + t) == (x + y) + z + t
  {
  }

  lemma CollapseRunFirst(w: string, b: string, sep: char)
    requires !IsWhitespace(sep)
    requires w != [] && forall i :: 0 <= i < |w| ==> IsWhitespace(w[i])
    requires b == [] || !IsWhitespace(b[0])
    ensures CollapseWhitespace(w + b, sep) == [sep] + CollapseWhitespace(b, sep)
  {
    TrimStartAfterRun(w, b);
    assert IsWhitespace((w + b)[0]);
  }

  lemma CollapseLeadingRun(a: string, x: string, sep: char)
    requires !IsWhitespace(sep)
    requires a != [] && IsWhitespace(a[0]) && !IsWhitespace(a[|a| - 1])
    ensures CollapseWhitespace(a + x, sep) == [sep] + CollapseWhitespace(TrimStart(a) + x, sep)
    ensures CollapseWhitespace(a, sep) == [sep] + CollapseWhitespace(TrimStart(a), sep)
  {
    TrimStartConcat(a, x);
    assert (a + x)[0] == a[0];
  }

  lemma CollapseLeadingChar(a: string, x: string, sep: char)
    requires !IsWhitespace(sep)
    requires a != [] && !IsWhitespace(a[0])
    ensures CollapseWhitespace(a + x, sep) == [a[0]] + CollapseWhitespace(a[1..] + x, sep)
    ensures CollapseWhitespace(a, sep) == [a[0]] + CollapseWhitespace(a[1..], sep)
  {
    assert (a + x)[0] == a[0] && (a + x)[1..] == a[1..] + x;
  }

  /** `toSnakeCase(str)`: lower-cased, with every whitespace run turned into one `_`. */
  function ToSnakeCase(v: Option<string>): (r: Option<string>)
    ensures r.Some? <==> Truthy(v)
    ensures r.Some? ==> NoWhitespace(r.value) && |r.value| <= |v.value| && IsLowerCase(r.value)
  {
    if Truthy(v) then
      CollapsedLowerIsLower(v.value, '_');
      Some(CollapseWhitespace(Lower(v.value), '_'))
    else None
  }

  /** `toKebabCase(str)`: lower-cased, with every whitespace run turned into one `-`. */
  function ToKebabCase(v: Option<string>): (r: Option<string>)
    ensures r.Some? <==> Truthy(v)
    ensures r.Some? ==> NoWhitespace(r.value) && |r.value| <= |v.value| && IsLowerCase(r.value)
  {
    if Truthy(v) then
      CollapsedLowerIsLower(v.value, '-');
      Some(CollapseWhitespace(Lower(v.value), '-'))
    else None
  }

  /** Lower-casing distributes over concatenation. */
  lemma LowerConcat(a: string, b: string)
    ensures Lower(a + b) == Lower(a) + Lower(b)
  {
    assert forall i :: 0 <= i < |a + b| ==> Lower(a + b)[i] == (Lower(a) + Lower(b))[i];
  }

  /** Lower-casing then collapsing: a whitespace run `w` between two words
      becomes one separator, and each side is converted on its own. */
  lemma LowerCollapseRun(a: string, w: string, b: string, sep: char)
    requires !IsWhitespace(sep)
    requires a != [] && !IsWhitespace(a[|a| - 1])
    requires w != [] && forall i :: 0 <= i < |w| ==> IsWhitespace(w[i])
    requires b != [] && !IsWhitespace(b[0])
    ensures CollapseWhitespace(Lower(a + w + b), sep)
            == CollapseWhitespace(Lower(a), sep) + [sep] + CollapseWhitespace(Lower(b), sep)
  {
    LowerConcat(a + w, b);
    LowerConcat(a, w);
    CaseMapFacts(a[|a| - 1]);
    CaseMapFacts(b[0]);
    var lw := Lower(w);
    forall i | 0 <= i < |lw|
      ensures IsWhitespace(lw[i])
    {
      CaseMapFacts(w[i]);
    }
    CollapseRun(Lower(a), lw, Lower(b), sep);
  }

  /** Text without whitespace is only lower-cased. */
  lemma LowerCollapseWord(s: string, sep: char)
    requires !IsWhitespace(sep) && NoWhitespace(s)
    ensures CollapseWhitespace(Lower(s), sep) == Lower(s)
  {
    var u := Lower(s);
    forall i | 0 <= i < |u|
      ensures !IsWhitespace(u[i])
    {
      CaseMapFacts(s[i]);
    }
    CollapseNoWhitespace(u, sep);
  }

  /** Snake case joins the snake-cased words around each whitespace run with one `_`. */
  lemma SnakeCaseRun(a: string, w: string, b: string)
    requires a != [] && !IsWhitespace(a[|a| - 1])
    requires w != [] && forall i :: 0 <= i < |w| ==> IsWhitespace(w[i])
    requires b != [] && !IsWhitespace(b[0])
    ensures ToSnakeCase(Some(a + w + b)) == Some(ToSnakeCase(Some(a)).value + "_" + ToSnakeCase(Some(b)).value)
  {
    LowerCollapseRun(a, w, b, '_');
  }

  /** Kebab case joins the kebab-cased words around each whitespace run with one `-`. */
  lemma KebabCaseRun(a: string, w: string, b: string)
    requires a != [] && !IsWhitespace(a[|a| - 1])
    requires w != [] && forall i :: 0 <= i < |w| ==> IsWhitespace(w[i])
    requires b != [] && !IsWhitespace(b[0])
    ensures ToKebabCase(Some(a + w + b)) == Some(ToKebabCase(Some(a)).value + "-" + ToKebabCase(Some(b)).value)
  {
    LowerCollapseRun(a, w, b, '-');
  }

  /** A single word comes out of snake case and of kebab case only lower-cased. */
  lemma CaseOfWord(s: string)
    requires s != [] && NoWhitespace(s)
    ensures ToSnakeCase(Some(s)) == Some(Lower(s))
    ensures ToKebabCase(Some(s)) == Some(Lower(s))
  {
    LowerCollapseWord(s, '_');
    LowerCollapseWord(s, '-');
  }

  /** Text whose every character is fixed by `LowerChar`. */
  predicate IsLowerCase(s: string) {
    forall i :: 0 <= i < |s| ==> LowerChar(s[i]) == s[i]
  }

  lemma CollapsedLowerIsLower(s: string, sep: char)
    requires !IsWhitespace(sep) && LowerChar(sep) == sep
    ensures IsLowerCase(CollapseWhitespace(Lower(s), sep))
  {
    var u := Lower(s);
    forall i | 0 <= i < |u|
      ensures LowerChar(u[i]) == u[i]
    {
      CaseMapFacts(s[i]);
    }
  }

  /** Converting to snake case a second time changes nothing. */
  lemma SnakeCaseIdempotent(v: Option<string>)
    ensures ToSnakeCase(ToSnakeCase(v)) == ToSnakeCase(v)
  {
    var r := ToSnakeCase(v);
    if r.Some? {
      CollapsedLowerIsLower(v.value, '_');
      assert Lower(r.value) == r.value;
      CollapseNoWhitespace(r.value, '_');
    }
  }

  /** Converting to kebab case a second time changes nothing. */
  lemma KebabCaseIdempotent(v: Option<string>)
    ensures ToKebabCase(ToKebabCase(v)) == ToKebabCase(v)
  {
    var r := ToKebabCase(v);
    if r.Some? {
      CollapsedLowerIsLower(v.value, '-');
      assert Lower(r.value) == r.value;
      CollapseNoWhitespace(r.value, '-');
    }
  }

  /** `toUpperCase(str)`. */
  function ToUpperCase(v: Option<string>): (r: Option<string>)
    ensures r.Some? <==> Truthy(v)
    ensures r.Some? ==> |r.value| == |v.value|
    ensures r.Some? ==> forall i :: 0 <= i < |r.value| ==> r.value[i] == UpperChar(v.value[i])
  {
    if Truthy(v) then Some(Upper(v.value)) else None
  }

  /** `toLowerCase(str)`. */
  function ToLowerCase(v: Option<string>): (r: Option<string>)
    ensures r.Some? <==> Truthy(v)
    ensures r.Some? ==> |r.value| == |v.value|
    ensures r.Some? ==> forall i :: 0 <= i < |r.value| ==> r.value[i] == LowerChar(v.value[i])
  {
    if Truthy(v) then Some(Lower(v.value)) else None
  }

  lemma UpperCaseIdempotent(v: Option<string>)
    ensures ToUpperCase(ToUpperCase(v)) == ToUpperCase(v)
  {
    var r := ToUpperCase(v);
    if r.Some? {
      forall i | 0 <= i < |r.value|
        ensures UpperChar(r.value[i]) == r.value[i]
      {
        CaseMapFacts(v.value[i]);
      }
      assert Upper(r.value) == r.value;
    }
  }

  lemma LowerCaseIdempotent(v: Option<string>)
    ensures ToLowerCase(ToLowerCase(v)) == ToLowerCase(v)
  {
    var r := ToLowerCase(v);
    if r.Some? {
      forall i | 0 <= i < |r.value|
        ensures LowerChar(r.value[i]) == r.value[i]
      {
        CaseMapFacts(v.value[i]);
      }
      assert Lower(r.value) == r.value;
    }
  }
}
