/**
 * Naming helpers of utils/Str.php: snake_case <-> CamelCase. PHP's
 * `preg_replace`, `strtolower`, `ucfirst` and `lcfirst` act on ASCII letters
 * only; everything else passes through unchanged.
 */
module Str {

  predicate IsUpper(c: char) { 'A' <= c <= 'Z' }

  predicate IsLower(c: char) { 'a' <= c <= 'z' }

  function ToLower(c: char): char
  {
    if IsUpper(c) then ((c as int) + 32) as char else c
  }

  function ToUpper(c: char): char
  {
    if IsLower(c) then ((c as int) - 32) as char else c
  }

  /** `strtolower`. */
  function LowerAll(s: string): (r: string)
    ensures |r| == |s| && forall k :: 0 <= k < |s| ==> r[k] == ToLower(s[k])
  {
    if s == [] then [] else [ToLower(s[0])] + LowerAll(s[1..])
  }

  /**
   * `preg_replace('/([^A-Z])([A-Z])/', '$1_$2', s)`: the pattern is matched
   * left to right; after a match of two characters the scan resumes behind
   * them.
   */
  function Underscored(s: string): string
    decreases |s|
  {
    if |s| < 2 then s
    else if !IsUpper(s[0]) && IsUpper(s[1]) then [s[0], '_', s[1]] + Underscored(s[2..])
    else [s[0]] + Underscored(s[1..])
  }

  /** `Str::toSnakeCase`. */
  function ToSnakeCase(camelCase: string): string
  {
    LowerAll(Underscored(camelCase))
  }

  /**
   * Reference reading of the replacement, one character at a time: an
   * underscore goes in front of every uppercase letter whose predecessor
   * exists and is not uppercase. `prevUpper` is true when the previous
   * character is uppercase or there is none.
   */
  function WordBreaks(prevUpper: bool, s: string): string
    decreases |s|
  {
    if s == [] then []
    else (if !prevUpper && IsUpper(s[0]) then "_" else "") + [s[0]] + WordBreaks(IsUpper(s[0]), s[1..])
  }

  /** Number of adjacent pairs (non-uppercase, uppercase) in `s`. */
  function Boundaries(s: string): nat
    decreases |s|
  {
    if |s| < 2 then 0
    else (if !IsUpper(s[0]) && IsUpper(s[1]) then 1 else 0) + Boundaries(s[1..])
  }

  lemma WordBreaksAfterLower(s: string)
    requires s != [] && !IsUpper(s[0])
    ensures WordBreaks(false, s) == WordBreaks(true, s)
  {
  }

  /** The left-to-right regex scan inserts exactly the reference's underscores. */
  lemma {:induction false} UnderscoredIsWordBreaks(s: string)
    ensures Underscored(s) == WordBreaks(true, s)
    decreases |s|
  {
    if |s| == 1 {
      assert WordBreaks(true, s) == [s[0]] + WordBreaks(IsUpper(s[0]), []);
    } else if |s| >= 2 {
      if !IsUpper(s[0]) && IsUpper(s[1]) {
        UnderscoredIsWordBreaks(s[2..]);
        assert s[1..][1..] == s[2..];
      } else {
        UnderscoredIsWordBreaks(s[1..]);
        if !IsUpper(s[0]) {
          WordBreaksAfterLower(s[1..]);
        }
      }
    }
  }

  lemma {:induction false} WordBreaksLength(prevUpper: bool, s: string)
    ensures |WordBreaks(prevUpper, s)|
         == |s| + Boundaries(s) + (if s != [] && !prevUpper && IsUpper(s[0]) then 1 else 0)
    decreases |s|
  {
    if s != [] {
      WordBreaksLength(IsUpper(s[0]), s[1..]);
    }
  }

  /** toSnakeCase adds one character per (non-uppercase, uppercase) pair. */
  lemma SnakeCaseLength(s: string)
    ensures |ToSnakeCase(s)| == |s| + Boundaries(s)
  {
    UnderscoredIsWordBreaks(s);
    WordBreaksLength(true, s);
  }

  /** A leading uppercase letter gains no underscore. */
  lemma SnakeCaseLeadingCapital(s: string)
    requires s != [] && IsUpper(s[0])
    ensures ToSnakeCase(s)[0] == ToLower(s[0])
  {
    UnderscoredIsWordBreaks(s);
  }

  /** toSnakeCase never leaves an uppercase ASCII letter. */
  lemma SnakeCaseHasNoUpper(s: string)
    ensures forall k :: 0 <= k < |ToSnakeCase(s)| ==> !IsUpper(ToSnakeCase(s)[k])
  {
  }

  // ---------------------------------------------------------------- CamelCase

  /** `explode` with a one-character delimiter. */
  function Explode(sep: char, s: string): (pieces: seq<string>)
    ensures |pieces| >= 1
  {
    if s == [] then [""]
    else if s[0] == sep then [""] + Explode(sep, s[1..])
    else var rest := Explode(sep, s[1..]); [[s[0]] + rest[0]] + rest[1..]
  }

  /** `implode` with a one-character glue. */
  function Implode(sep: char, pieces: seq<string>): string
  {
    if pieces == [] then ""
    else if |pieces| == 1 then pieces[0]
    else pieces[0] + [sep] + Implode(sep, pieces[1..])
  }

  function Concat(pieces: seq<string>): string
  {
    if pieces == [] then "" else pieces[0] + Concat(pieces[1..])
  }

  /** Gluing the pieces of `explode` back together gives the input. */
  lemma {:induction false} ExplodeImplode(sep: char, s: string)
    ensures Implode(sep, Explode(sep, s)) == s
  {
    if s != [] {
      ExplodeImplode(sep, s[1..]);
      var rest := Explode(sep, s[1..]);
      var pieces := Explode(sep, s);
      if s[0] != sep {
        assert pieces[1..] == rest[1..];
        if |rest| == 1 {
          assert Implode(sep, pieces) == [s[0]] + rest[0];
        } else {
          assert Implode(sep, pieces) == ([s[0]] + rest[0]) + [sep] + Implode(sep, rest[1..]);
        }
      } else {
        assert pieces[1..] == rest;
      }
    }
  }

  /** No piece of `explode` holds the delimiter. */
  lemma {:induction false} ExplodePiecesLackSeparator(sep: char, s: string)
    ensures forall i, k :: 0 <= i < |Explode(sep, s)| && 0 <= k < |Explode(sep, s)[i]| ==> Explode(sep, s)[i][k] != sep
  {
    if s != [] {
      ExplodePiecesLackSeparator(sep, s[1..]);
      var rest := Explode(sep, s[1..]);
      var pieces := Explode(sep, s);
      forall i, k | 0 <= i < |pieces| && 0 <= k < |pieces[i]| ensures pieces[i][k] != sep {
        if s[0] != sep {
          if i == 0 && k > 0 { assert pieces[0][k] == rest[0][k - 1]; }
          if i > 0 { assert pieces[i] == rest[i]; }
        } else if i > 0 {
          assert pieces[i] == rest[i - 1];
        }
      }
    }
  }

  /** `ucfirst`. */
  function Ucfirst(s: string): string
  {
    if s == [] then s else [ToUpper(s[0])] + s[1..]
  }

  /** `lcfirst`. */
  function Lcfirst(s: string): string
  {
    if s == [] then s else [ToLower(s[0])] + s[1..]
  }

  function UcfirstEach(pieces: seq<string>): (r: seq<string>)
    ensures |r| == |pieces| && forall i :: 0 <= i < |pieces| ==> r[i] == Ucfirst(pieces[i])
  {
    if pieces == [] then [] else [Ucfirst(pieces[0])] + UcfirstEach(pieces[1..])
  }

  /** `Str::toCamelCase`. */
  function ToCamelCase(snakeCase: string, capitalizeFirst: bool := true): string
  {
    var camelCase := Concat(UcfirstEach(Explode('_', snakeCase)));
    if capitalizeFirst then camelCase else Lcfirst(camelCase)
  }

  /**
   * Reference reading of toCamelCase, one character at a time: underscores
   * disappear, and the character at the start or right after an underscore
   * is uppercased.
   */
  function CamelRef(atStart: bool, s: string): string
    decreases |s|
  {
    if s == [] then []
    else if s[0] == '_' then CamelRef(true, s[1..])
    else [if atStart then ToUpper(s[0]) else s[0]] + CamelRef(false, s[1..])
  }

  lemma {:induction false} ConcatUcfirstCons(ps: seq<string>)
    requires ps != []
    ensures Concat(UcfirstEach(ps)) == Ucfirst(ps[0]) + Concat(UcfirstEach(ps[1..]))
  {
    assert UcfirstEach(ps)[1..] == UcfirstEach(ps[1..]);
  }

  /** The step of CamelRefOfExplode at an underscore: a new, empty first piece. */
  lemma {:induction false} CamelExplodeAtSep(atStart: bool, s: string)
    requires s != [] && s[0] == '_'
    requires CamelRef(true, s[1..]) == Ucfirst(Explode('_', s[1..])[0]) + Concat(UcfirstEach(Explode('_', s[1..])[1..]))
    ensures CamelRef(atStart, s)
         == (if atStart then Ucfirst(Explode('_', s)[0]) else Explode('_', s)[0]) + Concat(UcfirstEach(Explode('_', s)[1..]))
  {
    var rest, pieces := Explode('_', s[1..]), Explode('_', s);
    assert pieces[0] == "" && pieces[1..] == rest;
    ConcatUcfirstCons(rest);
    assert "" + Concat(UcfirstEach(rest)) == Concat(UcfirstEach(rest));
  }

  /** A character other than '_' in front of the first piece joins that piece. */
  lemma {:induction false} PieceJoin(atStart: bool, c: char, t: string, p: string, tail: string)
    requires c != '_' && CamelRef(false, t) == p + tail
    ensures CamelRef(atStart, [c] + t) == (if atStart then Ucfirst([c] + p) else [c] + p) + tail
  {
    CamelRefCons(atStart, c, t);
    assert ([c] + p)[1..] == p;
    var h := if atStart then ToUpper(c) else c;
    assert [h] + (p + tail) == ([h] + p) + tail;
  }

  /** The step of CamelRefOfExplode at any other character: it joins the first piece. */
  lemma {:induction false} CamelExplodeInPiece(atStart: bool, s: string)
    requires s != [] && s[0] != '_'
    requires CamelRef(false, s[1..]) == Explode('_', s[1..])[0] + Concat(UcfirstEach(Explode('_', s[1..])[1..]))
    ensures CamelRef(atStart, s)
         == (if atStart then Ucfirst(Explode('_', s)[0]) else Explode('_', s)[0]) + Concat(UcfirstEach(Explode('_', s)[1..]))
  {
    var rest, pieces := Explode('_', s[1..]), Explode('_', s);
    assert pieces[0] == [s[0]] + rest[0] && pieces[1..] == rest[1..];
    assert s == [s[0]] + s[1..];
    PieceJoin(atStart, s[0], s[1..], rest[0], Concat(UcfirstEach(rest[1..])));
  }

  lemma {:induction false} CamelRefOfExplode(atStart: bool, s: string)
    ensures CamelRef(atStart, s)
         == (if atStart then Ucfirst(Explode('_', s)[0]) else Explode('_', s)[0])
            + Concat(UcfirstEach(Explode('_', s)[1..]))
    decreases |s|
  {
    if s == [] {
      assert Explode('_', s)[1..] == [];
    } else if s[0] == '_' {
      CamelRefOfExplode(true, s[1..]);
      CamelExplodeAtSep(atStart, s);
    } else {
      CamelRefOfExplode(false, s[1..]);
      CamelExplodeInPiece(atStart, s);
    }
  }

  /** toCamelCase agrees with the character-level reference. */
  lemma CamelCaseIsCamelRef(s: string)
    ensures ToCamelCase(s) == CamelRef(true, s)
  {
    CamelRefOfExplode(true, s);
  }

  lemma {:induction false} CamelRefHasNoUnderscore(atStart: bool, s: string)
    ensures forall k :: 0 <= k < |CamelRef(atStart, s)| ==> CamelRef(atStart, s)[k] != '_'
    decreases |s|
  {
    if s != [] {
      CamelRefHasNoUnderscore(true, s[1..]);
      CamelRefHasNoUnderscore(false, s[1..]);
    }
  }

  /** toCamelCase output contains no underscore. */
  lemma CamelCaseHasNoUnderscore(s: string, capitalizeFirst: bool)
    ensures forall k :: 0 <= k < |ToCamelCase(s, capitalizeFirst)| ==> ToCamelCase(s, capitalizeFirst)[k] != '_'
  {
    CamelCaseIsCamelRef(s);
    CamelRefHasNoUnderscore(true, s);
  }

  /** With capitalizeFirst false only the first character of the capitalised result changes. */
  lemma CamelCaseLowerFirst(s: string)
    ensures |ToCamelCase(s, false)| == |ToCamelCase(s, true)|
    ensures ToCamelCase(s, false) == Lcfirst(ToCamelCase(s, true))
    ensures ToCamelCase(s, false) != [] ==>
              ToCamelCase(s, false)[0] == ToLower(ToCamelCase(s, true)[0]) && ToCamelCase(s, false)[1..] == ToCamelCase(s, true)[1..]
  {
  }

  // ---------------------------------------------------------------- round trips

  /**
   * `SnakeFrom(atStart, prevUpper, s)` holds when `s` is the rest of a
   * snake_case name that toCamelCase and toSnakeCase restore: no uppercase
   * letters, every piece starts with a lowercase letter, no empty piece, and
   * every piece but the last has at least two characters (a one-letter piece
   * joins the next one: "a_b" becomes "AB" and then "ab"). The flags are the
   * state of the two conversions: `atStart` (a piece starts here) and
   * `prevUpper` (the last character written by toCamelCase was uppercase).
   */
  predicate SnakeFrom(atStart: bool, prevUpper: bool, s: string)
    decreases |s|
  {
    if s == [] then !(atStart && !prevUpper)
    else if s[0] == '_' then !atStart && !prevUpper && SnakeFrom(true, false, s[1..])
    else if IsUpper(s[0]) then false
    else if atStart then IsLower(s[0]) && SnakeFrom(false, true, s[1..])
    else SnakeFrom(false, false, s[1..])
  }

  predicate IsSnakeName(s: string) { SnakeFrom(true, true, s) }

  lemma LowerAllCons(c: char, s: string)
    ensures LowerAll([c] + s) == [ToLower(c)] + LowerAll(s)
  {
    assert ([c] + s)[1..] == s;
  }

  lemma WordBreaksCons(prevUpper: bool, c: char, s: string)
    ensures WordBreaks(prevUpper, [c] + s) == (if !prevUpper && IsUpper(c) then "_" else "") + [c] + WordBreaks(IsUpper(c), s)
  {
    assert ([c] + s)[1..] == s;
  }

  lemma CamelRefCons(atStart: bool, c: char, s: string)
    ensures CamelRef(atStart, [c] + s)
         == if c == '_' then CamelRef(true, s) else [if atStart then ToUpper(c) else c] + CamelRef(false, s)
  {
    assert ([c] + s)[1..] == s;
  }

  lemma TailOfAppend<T>(a: seq<T>, b: seq<T>)
    requires a != []
    ensures (a + b)[0] == a[0] && (a + b)[1..] == a[1..] + b
  {
  }

  lemma {:induction false} LowerAllAppend(a: string, b: string)
    ensures LowerAll(a + b) == LowerAll(a) + LowerAll(b)
    decreases |a|
  {
    if a == [] {
      assert a + b == b;
    } else {
      LowerAllAppend(a[1..], b);
      TailOfAppend(a, b);
      assert [ToLower(a[0])] + (LowerAll(a[1..]) + LowerAll(b)) == ([ToLower(a[0])] + LowerAll(a[1..])) + LowerAll(b);
    }
  }

  lemma UpperLower(c: char)
    requires IsLower(c)
    ensures IsUpper(ToUpper(c)) && ToLower(ToUpper(c)) == c && ToUpper(c) != '_'
  {
  }

  /** toCamelCase uppercases the first letter of a piece, and toSnakeCase puts an underscore before it. */
  lemma BreakAtStart(prevUpper: bool, c: char, rest: string)
    requires IsLower(c)
    ensures WordBreaks(prevUpper, CamelRef(true, [c] + rest))
         == (if !prevUpper then "_" else "") + ([ToUpper(c)] + WordBreaks(true, CamelRef(false, rest)))
  {
    var u, r := ToUpper(c), CamelRef(false, rest);
    UpperLower(c);
    CamelRefCons(true, c, rest);
    WordBreaksCons(prevUpper, u, r);
    assert (if !prevUpper then "_" else "") + [u] + WordBreaks(true, r)
        == (if !prevUpper then "_" else "") + ([u] + WordBreaks(true, r));
  }

  /** The step of SnakeCamelSnakeFrom at the first letter of a piece. */
  lemma SnakeStepAtStart(prevUpper: bool, c: char, rest: string)
    requires IsLower(c) && LowerAll(WordBreaks(true, CamelRef(false, rest))) == rest
    ensures LowerAll(WordBreaks(prevUpper, CamelRef(true, [c] + rest))) == (if !prevUpper then "_" else "") + ([c] + rest)
  {
    var w := WordBreaks(true, CamelRef(false, rest));
    var pre: string := if !prevUpper then "_" else "";
    BreakAtStart(prevUpper, c, rest);
    UpperLower(c);
    LowerAllAppend(pre, [ToUpper(c)] + w);
    LowerAllCons(ToUpper(c), w);
    assert LowerAll(pre) == pre;
  }

  /** The step of SnakeCamelSnakeFrom inside a piece. */
  lemma SnakeStepInside(prevUpper: bool, c: char, rest: string)
    requires c != '_' && !IsUpper(c) && LowerAll(WordBreaks(false, CamelRef(false, rest))) == rest
    ensures LowerAll(WordBreaks(prevUpper, CamelRef(false, [c] + rest))) == [c] + rest
  {
    var w := WordBreaks(false, CamelRef(false, rest));
    CamelRefCons(false, c, rest);
    WordBreaksCons(prevUpper, c, CamelRef(false, rest));
    assert "" + [c] + w == [c] + w;
    LowerAllCons(c, w);
  }

  lemma {:induction false} SnakeCamelSnakeFrom(atStart: bool, prevUpper: bool, s: string)
    requires SnakeFrom(atStart, prevUpper, s)
    ensures LowerAll(WordBreaks(prevUpper, CamelRef(atStart, s)))
         == (if atStart && !prevUpper then "_" else "") + s
    decreases |s|
  {
    if s != [] {
      var c, rest := s[0], s[1..];
      assert s == [c] + rest;
      if c == '_' {
        SnakeCamelSnakeFrom(true, false, rest);
        CamelRefCons(atStart, c, rest);
      } else if atStart {
        SnakeCamelSnakeFrom(false, true, rest);
        assert "" + rest == rest;
        SnakeStepAtStart(prevUpper, c, rest);
      } else {
        SnakeCamelSnakeFrom(false, false, rest);
        assert "" + rest == rest;
        SnakeStepInside(prevUpper, c, rest);
        assert "" + s == s;
      }
    }
  }

  /** A snake_case migration name survives toCamelCase followed by toSnakeCase. */
  lemma SnakeCamelSnake(s: string)
    requires IsSnakeName(s)
    ensures ToSnakeCase(ToCamelCase(s)) == s
  {
    CamelCaseIsCamelRef(s);
    UnderscoredIsWordBreaks(ToCamelCase(s));
    SnakeCamelSnakeFrom(true, true, s);
  }

  /** Why pieces of one letter are excluded. */
  lemma OneLetterPieceIsLost()
    ensures ToCamelCase("a_b") == "AB"
    ensures ToSnakeCase("AB") == "ab"
  {
    CamelCaseIsCamelRef("a_b");
  }

  /**
   * A CamelCase class name: no underscore, starts with an uppercase letter
   * and no two uppercase letters are adjacent.
   */
  predicate IsCamelName(s: string)
  {
    && (s != [] ==> IsUpper(s[0]))
    && (forall k :: 0 <= k < |s| ==> s[k] != '_')
    && (forall k :: 0 < k < |s| && IsUpper(s[k]) ==> !IsUpper(s[k - 1]))
  }

  lemma LowerUpper(c: char)
    requires IsUpper(c)
    ensures IsLower(ToLower(c)) && ToUpper(ToLower(c)) == c && ToLower(c) != '_'
  {
  }

  /** The step of CamelSnakeCamelFrom at an uppercase letter: its underscore starts a piece again. */
  lemma CamelStepUpper(c: char, t: string)
    requires IsUpper(c)
    ensures CamelRef(false, LowerAll("_" + [c] + t)) == [c] + CamelRef(false, LowerAll(t))
  {
    var l := LowerAll(t);
    LowerUpper(c);
    assert "_" + [c] + t == ['_'] + ([c] + t);
    LowerAllCons('_', [c] + t);
    LowerAllCons(c, t);
    CamelRefCons(false, '_', [ToLower(c)] + l);
    CamelRefCons(true, ToLower(c), l);
  }

  /** The step of CamelSnakeCamelFrom at any other character. */
  lemma CamelStepOther(c: char, t: string)
    requires !IsUpper(c) && c != '_'
    ensures CamelRef(false, LowerAll([c] + t)) == [c] + CamelRef(false, LowerAll(t))
  {
    LowerAllCons(c, t);
    CamelRefCons(false, c, LowerAll(t));
  }

  /**
   * The rest of a CamelCase name after a character whose case is
   * `prevUpper`: no underscore, and no uppercase letter right after another.
   */
  predicate CamelFrom(prevUpper: bool, s: string)
  {
    && (forall k :: 0 <= k < |s| ==> s[k] != '_')
    && (forall k :: 0 < k < |s| && IsUpper(s[k]) ==> !IsUpper(s[k - 1]))
    && (s != [] && IsUpper(s[0]) ==> !prevUpper)
  }

  lemma CamelFromTail(prevUpper: bool, s: string)
    requires s != [] && CamelFrom(prevUpper, s)
    ensures CamelFrom(IsUpper(s[0]), s[1..]) && s[0] != '_'
  {
    var t := s[1..];
    assert forall k :: 0 <= k < |t| ==> t[k] == s[k + 1];
  }

  /** One character of CamelSnakeCamelFrom, given the round trip of the rest. */
  lemma CamelStep(prevUpper: bool, s: string)
    requires s != [] && s[0] != '_' && (IsUpper(s[0]) ==> !prevUpper)
    requires CamelRef(false, LowerAll(WordBreaks(IsUpper(s[0]), s[1..]))) == s[1..]
    ensures CamelRef(false, LowerAll(WordBreaks(prevUpper, s))) == s
  {
    var c, rest := s[0], s[1..];
    var t := WordBreaks(IsUpper(c), rest);
    assert s == [c] + rest;
    WordBreaksCons(prevUpper, c, rest);
    if IsUpper(c) {
      CamelStepUpper(c, t);
    } else {
      assert "" + [c] + t == [c] + t;
      CamelStepOther(c, t);
    }
  }

  lemma {:induction false} CamelSnakeCamelFrom(prevUpper: bool, s: string)
    requires CamelFrom(prevUpper, s)
    ensures CamelRef(false, LowerAll(WordBreaks(prevUpper, s))) == s
    decreases |s|
  {
    if s != [] {
      CamelFromTail(prevUpper, s);
      CamelSnakeCamelFrom(IsUpper(s[0]), s[1..]);
      CamelStep(prevUpper, s);
    }
  }

  /** A CamelCase class name survives toSnakeCase followed by toCamelCase. */
  lemma CamelSnakeCamel(s: string)
    requires IsCamelName(s)
    ensures ToCamelCase(ToSnakeCase(s)) == s
  {
    UnderscoredIsWordBreaks(s);
    CamelCaseIsCamelRef(ToSnakeCase(s));
    if s != [] {
      assert CamelFrom(false, s);
      CamelFromTail(false, s);
      CamelSnakeCamelFrom(true, s[1..]);
      assert ToSnakeCase(s) == [ToLower(s[0])] + LowerAll(WordBreaks(true, s[1..]));
    }
  }

  predicate NoUnderscore(s: string) { forall k :: 0 <= k < |s| ==> s[k] != '_' }

  lemma {:induction false} NoUnderscoreTail(s: string)
    requires s != [] && NoUnderscore(s)
    ensures NoUnderscore(s[1..]) && s[0] != '_'
  {
    assert forall k :: 0 <= k < |s[1..]| ==> s[1..][k] == s[k + 1];
  }

  /** The step of CamelRefPiece at the first character of the piece. */
  lemma {:induction false} CamelPieceStepAlone(atStart: bool, c: char, piece: string)
    requires c != '_' && CamelRef(false, piece) == piece
    ensures CamelRef(atStart, [c] + piece) == (if atStart then Ucfirst([c] + piece) else [c] + piece)
  {
    assert piece + [] == piece;
    PieceJoin(atStart, c, piece, piece, []);
    assert ([c] + piece) + [] == [c] + piece;
  }

  lemma {:induction false} CamelPieceStepFollowed(atStart: bool, c: char, piece: string, rest: string)
    requires c != '_'
    requires CamelRef(false, piece + "_" + rest) == piece + CamelRef(true, rest)
    ensures CamelRef(atStart, [c] + piece + "_" + rest) == (if atStart then Ucfirst([c] + piece) else [c] + piece) + CamelRef(true, rest)
  {
    assert [c] + piece + "_" + rest == [c] + (piece + "_" + rest);
    PieceJoin(atStart, c, piece + "_" + rest, piece, CamelRef(true, rest));
  }

  /** toCamelCase on one underscore-free piece, and on a piece followed by more. */
  lemma {:induction false} CamelRefPiece(atStart: bool, piece: string, rest: string)
    requires NoUnderscore(piece)
    ensures CamelRef(atStart, piece) == (if atStart then Ucfirst(piece) else piece)
    ensures CamelRef(atStart, piece + "_" + rest) == (if atStart then Ucfirst(piece) else piece) + CamelRef(true, rest)
    decreases |piece|
  {
    if piece != [] {
      NoUnderscoreTail(piece);
      CamelRefPiece(false, piece[1..], rest);
      assert piece == [piece[0]] + piece[1..];
      CamelPieceStepAlone(atStart, piece[0], piece[1..]);
      CamelPieceStepFollowed(atStart, piece[0], piece[1..], rest);
    } else {
      assert piece + "_" + rest == ['_'] + rest;
      CamelRefCons(atStart, '_', rest);
      assert [] + CamelRef(true, rest) == CamelRef(true, rest);
    }
  }

  /** toCamelCase of two underscore-free pieces. */
  lemma CamelCaseOfTwoPieces(p: string, q: string)
    requires NoUnderscore(p) && NoUnderscore(q)
    ensures ToCamelCase(p + "_" + q) == Ucfirst(p) + Ucfirst(q)
  {
    CamelCaseIsCamelRef(p + "_" + q);
    CamelRefPiece(true, p, q);
    CamelRefPiece(true, q, "");
  }

  /** toCamelCase of three underscore-free pieces. */
  lemma CamelCaseOfThreePieces(p: string, q: string, r: string)
    requires NoUnderscore(p) && NoUnderscore(q) && NoUnderscore(r)
    ensures ToCamelCase(p + "_" + (q + "_" + r)) == Ucfirst(p) + (Ucfirst(q) + Ucfirst(r))
  {
    CamelCaseIsCamelRef(p + "_" + (q + "_" + r));
    CamelRefPiece(true, p, q + "_" + r);
    CamelRefPiece(true, q, r);
    CamelRefPiece(true, r, "");
  }

  /**
   * The migration names of the feed example map to their class names
   * (the literals are passed as arguments so that the solver does not unfold
   * `explode` on them).
   */
  lemma CreateArticlesClassName(create: string)
    requires create == "create_articles"
    ensures ToCamelCase(create) == "CreateArticles"
  {
    NameLiterals();
    CamelCaseOfTwoPieces("create", "articles");
  }

  lemma AddArticlesAuthorClassName(addAuthor: string)
    requires addAuthor == "add_articles_author"
    ensures ToCamelCase(addAuthor) == "AddArticlesAuthor"
  {
    NameLiterals();
    CamelCaseOfThreePieces("add", "articles", "author");
  }

  /** The pieces of the two names and their capitalised forms, spelled out. */
  lemma NameLiterals()
    ensures NoUnderscore("create") && NoUnderscore("add") && NoUnderscore("articles") && NoUnderscore("author")
    ensures Ucfirst("create") == "Create" && Ucfirst("add") == "Add"
    ensures Ucfirst("articles") == "Articles" && Ucfirst("author") == "Author"
    ensures "create" + "_" + "articles" == "create_articles"
    ensures "Create" + "Articles" == "CreateArticles"
    ensures "add" + "_" + ("articles" + "_" + "author") == "add_articles_author"
    ensures "Add" + ("Articles" + "Author") == "AddArticlesAuthor"
  {
    CreateArticlesLiterals();
    AuthorSplit();
    AuthorJoin();
  }

  lemma CreateArticlesLiterals()
    ensures "create" + "_" + "articles" == "create_articles"
    ensures "Create" + "Articles" == "CreateArticles"
  {
  }

  lemma AuthorSplit()
    ensures "add" + "_" + ("articles" + "_" + "author") == "add_articles_author"
  {
  }

  lemma AuthorJoin()
    ensures "Add" + ("Articles" + "Author") == "AddArticlesAuthor"
  {
  }
}
