/**
 `normalize_spaces` (calendarbuddy.py:102-109) and the `rstrip()` that the parser
 applies to every raw line.
 */
module Text {
  import opened Strings

  /** The three special spaces the source rewrites to a plain space. */
  predicate IsSpecialSpace(ch: char)
  {
    ch == '\U{A0}' || ch == '\U{202F}' || ch == '\U{2009}'
  }

  /** The regex class `[ \t\r\f\v]`; newline is deliberately not in it. */
  predicate IsBlank(ch: char)
  {
    ch == ' ' || ch == '\t' || ch == '\r' || ch == '\U{C}' || ch == '\U{B}'
  }

  /** Characters that normalisation may rewrite or merge. */
  predicate IsWhite(ch: char)
  {
    IsSpecialSpace(ch) || IsBlank(ch)
  }

  /** The three `str.replace` calls: each special space becomes ' '. */
  function ReplaceSpecialSpaces(s: string): (r: string)
    ensures |r| == |s|
    ensures forall i :: 0 <= i < |s| ==> r[i] == (if IsSpecialSpace(s[i]) then ' ' else s[i])
  {
    seq(|s|, i requires 0 <= i < |s| => if IsSpecialSpace(s[i]) then ' ' else s[i])
  }

  /** `s` with its leading run of blanks removed. */
  function DropBlanks(s: string): (r: string)
    ensures |r| <= |s|
    ensures r == s[|s| - |r|..]
    ensures r != [] ==> !IsBlank(r[0])
    ensures forall i :: 0 <= i < |s| - |r| ==> IsBlank(s[i])
  {
    if s != [] && IsBlank(s[0]) then DropBlanks(s[1..]) else s
  }

  /** `re.sub(r"[ \t\r\f\v]+", " ", s)`: every maximal run of blanks becomes one space. */
  function CollapseBlanks(s: string): (r: string)
    ensures |r| <= |s|
    ensures s != [] ==> r != [] && r[0] == (if IsBlank(s[0]) then ' ' else s[0])
    ensures s != [] ==> (r[|r| - 1] == ' ' <==> IsBlank(s[|s| - 1]))
    decreases |s|
  {
    if s == [] then []
    else if IsBlank(s[0]) then
      var d := DropBlanks(s[1..]);
      var r := " " + CollapseBlanks(d);
      assert d != [] ==> d[|d| - 1] == s[|s| - 1];
      r
    else
      [s[0]] + CollapseBlanks(s[1..])
  }

  function NormalizeSpaces(s: string): string
  {
    CollapseBlanks(ReplaceSpecialSpaces(s))
  }

  /** The characters of `s` that are not white, in order: what normalisation must keep. */
  function Skeleton(s: string): string
  {
    if s == [] then [] else (if IsWhite(s[0]) then [] else [s[0]]) + Skeleton(s[1..])
  }

  /**
   The words of `s`: its maximal runs of non-white characters, in order. A non-white
   character joins the word the next character starts, unless that one is white or
   missing, in which case it ends a word of its own.
   */
  function Words(s: string): (r: seq<string>)
    ensures s != [] && !IsWhite(s[0]) ==> r != [] && r[0] != [] && r[0][0] == s[0]
    decreases |s|
  {
    if s == [] then []
    else
      var rest := Words(s[1..]);
      if IsWhite(s[0]) then rest
      else if |s| > 1 && !IsWhite(s[1]) then [[s[0]] + rest[0]] + rest[1..]
      else [[s[0]]] + rest
  }

  /** One step of `Words`, stated for a character in front of a string. */
  lemma WordsCons(c: char, x: string)
    ensures Words([c] + x)
         == if IsWhite(c) then Words(x)
            else if x != [] && !IsWhite(x[0]) then [[c] + Words(x)[0]] + Words(x)[1..]
            else [[c]] + Words(x)
  {
    assert ([c] + x)[1..] == x;
  }

  /** A string normalisation leaves as it is: no special spaces, no blank but ' ', no "  ". */
  ghost predicate Normalized(s: string)
  {
    && (forall i :: 0 <= i < |s| ==> IsWhite(s[i]) ==> s[i] == ' ')
    && (forall i :: 0 <= i < |s| - 1 ==> !(s[i] == ' ' && s[i + 1] == ' '))
  }

  lemma {:induction false} SkeletonOfDropBlanks(s: string)
    ensures Skeleton(DropBlanks(s)) == Skeleton(s)
    decreases |s|
  {
    if s != [] && IsBlank(s[0]) {
      SkeletonOfDropBlanks(s[1..]);
    }
  }

  lemma {:induction false} SkeletonOfCollapse(s: string)
    ensures Skeleton(CollapseBlanks(s)) == Skeleton(s)
    decreases |s|
  {
    if s != [] {
      var r := CollapseBlanks(s);
      if IsBlank(s[0]) {
        var rest := DropBlanks(s[1..]);
        SkeletonOfCollapse(rest);
        SkeletonOfDropBlanks(s[1..]);
        assert r[1..] == CollapseBlanks(rest);
      } else {
        SkeletonOfCollapse(s[1..]);
        assert r[1..] == CollapseBlanks(s[1..]);
      }
    }
  }

  lemma {:induction false} SkeletonOfReplace(s: string)
    ensures Skeleton(ReplaceSpecialSpaces(s)) == Skeleton(s)
    decreases |s|
  {
    if s != [] {
      SkeletonOfReplace(s[1..]);
      assert ReplaceSpecialSpaces(s)[1..] == ReplaceSpecialSpaces(s[1..]);
    }
  }

  lemma {:induction false} WordsOfReplace(s: string)
    ensures Words(ReplaceSpecialSpaces(s)) == Words(s)
    decreases |s|
  {
    if s != [] {
      var t := ReplaceSpecialSpaces(s);
      WordsOfReplace(s[1..]);
      assert t == [t[0]] + ReplaceSpecialSpaces(s[1..]);
      assert s == [s[0]] + s[1..];
      WordsCons(t[0], ReplaceSpecialSpaces(s[1..]));
      WordsCons(s[0], s[1..]);
    }
  }

  lemma {:induction false} WordsOfDropBlanks(s: string)
    ensures Words(DropBlanks(s)) == Words(s)
    decreases |s|
  {
    if s != [] && IsBlank(s[0]) {
      WordsOfDropBlanks(s[1..]);
      assert s == [s[0]] + s[1..];
      WordsCons(s[0], s[1..]);
    }
  }

  lemma {:induction false} WordsOfCollapse(s: string)
    ensures Words(CollapseBlanks(s)) == Words(s)
    decreases |s|
  {
    if s != [] {
      assert s == [s[0]] + s[1..];
      WordsCons(s[0], s[1..]);
      if IsBlank(s[0]) {
        var d := DropBlanks(s[1..]);
        WordsOfCollapse(d);
        WordsOfDropBlanks(s[1..]);
        WordsCons(' ', CollapseBlanks(d));
      } else {
        WordsOfCollapse(s[1..]);
        WordsCons(s[0], CollapseBlanks(s[1..]));
      }
    }
  }

  /** After the rewrite every white character is a plain space. */
  lemma {:induction false} CollapseOnlySpaces(s: string)
    requires forall i :: 0 <= i < |s| ==> !IsSpecialSpace(s[i])
    ensures Normalized(CollapseBlanks(s))
    decreases |s|
  {
    if s != [] {
      var r := CollapseBlanks(s);
      if IsBlank(s[0]) {
        var rest := DropBlanks(s[1..]);
        CollapseOnlySpaces(rest);
        assert r == " " + CollapseBlanks(rest);
      } else {
        CollapseOnlySpaces(s[1..]);
        assert r == [s[0]] + CollapseBlanks(s[1..]);
      }
    }
  }

  /** A normalized string is its own collapse. */
  lemma {:induction false} CollapseOfNormalized(s: string)
    requires Normalized(s)
    ensures CollapseBlanks(s) == s
    decreases |s|
  {
    if s != [] {
      assert Normalized(s[1..]);
      CollapseOfNormalized(s[1..]);
      if IsBlank(s[0]) {
        assert s[1..] == [] || !IsBlank(s[1]);
        assert DropBlanks(s[1..]) == s[1..];
        assert s == " " + s[1..];
      } else {
        assert s == [s[0]] + s[1..];
      }
    }
  }

  /** Normalisation keeps emptiness and whether the text starts or ends in white. */
  lemma NormalizeSpacesEnds(s: string)
    ensures NormalizeSpaces(s) == [] <==> s == []
    ensures s != [] ==> (NormalizeSpaces(s)[0] == ' ' <==> IsWhite(s[0]))
    ensures s != [] ==> (NormalizeSpaces(s)[|NormalizeSpaces(s)| - 1] == ' ' <==> IsWhite(s[|s| - 1]))
  {
    var t := ReplaceSpecialSpaces(s);
    if s != [] {
      assert t[0] == (if IsSpecialSpace(s[0]) then ' ' else s[0]);
      assert t[|t| - 1] == (if IsSpecialSpace(s[|s| - 1]) then ' ' else s[|s| - 1]);
    }
  }

  /**
   What normalisation promises: the non-white characters (newlines included) are kept
   in order, every remaining white character is a plain space, no two spaces are
   adjacent, nothing grows, and a second normalisation changes nothing. The words
   are kept, and the result is empty, starts with a space or ends with one exactly
   when `s` is empty, starts with a white character or ends with one: together with
   `Normalized` this leaves one possible result.
   */
  lemma NormalizeSpacesSpec(s: string)
    ensures Words(NormalizeSpaces(s)) == Words(s)
    ensures NormalizeSpaces(s) == [] <==> s == []
    ensures s != [] ==> (NormalizeSpaces(s)[0] == ' ' <==> IsWhite(s[0]))
    ensures s != [] ==> (NormalizeSpaces(s)[|NormalizeSpaces(s)| - 1] == ' ' <==> IsWhite(s[|s| - 1]))
    ensures Skeleton(NormalizeSpaces(s)) == Skeleton(s)
    ensures Normalized(NormalizeSpaces(s))
    ensures |NormalizeSpaces(s)| <= |s|
    ensures NormalizeSpaces(NormalizeSpaces(s)) == NormalizeSpaces(s)
  {
    var t := ReplaceSpecialSpaces(s);
    var r := NormalizeSpaces(s);
    SkeletonOfReplace(s);
    SkeletonOfCollapse(t);
    CollapseOnlySpaces(t);
    NormalizeSpacesEnds(s);
    WordsOfReplace(s);
    WordsOfCollapse(t);
    assert ReplaceSpecialSpaces(r) == r;
    CollapseOfNormalized(r);
  }

  /** A normalized string without words is empty or a single space. */
  lemma NoWords(a: string)
    requires Normalized(a) && Words(a) == []
    ensures a == [] || a == " "
  {
    if a != [] {
      assert a == [a[0]] + a[1..];
      WordsCons(a[0], a[1..]);
      assert a[0] == ' ';
      assert Words(a[1..]) == [];
    }
  }

  /**
   A normalized string is determined by its words, by whether it is empty, and by
   whether it starts and ends with a space.
   */
  lemma {:induction false} NormalizedUnique(a: string, b: string)
    requires Normalized(a) && Normalized(b)
    requires Words(a) == Words(b)
    requires a == [] <==> b == []
    requires a != [] && b != [] ==> (a[0] == ' ' <==> b[0] == ' ')
    requires a != [] && b != [] ==> (a[|a| - 1] == ' ' <==> b[|b| - 1] == ' ')
    ensures a == b
    decreases |a|
  {
    if a != [] {
      var a', b' := a[1..], b[1..];
      assert a == [a[0]] + a' && b == [b[0]] + b';
      WordsCons(a[0], a');
      WordsCons(b[0], b');
      assert Normalized(a') && Normalized(b');
      assert a' != [] ==> a'[0] == a[1] && a'[|a'| - 1] == a[|a| - 1];
      assert b' != [] ==> b'[0] == b[1] && b'[|b'| - 1] == b[|b| - 1];
      if a[0] == ' ' {
        if a' == [] {
          NoWords(b);
        }
        if b' == [] {
          NoWords(a);
        }
        NormalizedUnique(a', b');
      } else {
        assert !IsWhite(a[0]) && !IsWhite(b[0]);
        assert a[0] == Words(a)[0][0] == b[0];
        var ja := a' != [] && !IsWhite(a'[0]);
        var jb := b' != [] && !IsWhite(b'[0]);
        assert ja <==> |Words(a)[0]| > 1;
        assert jb <==> |Words(b)[0]| > 1;
        if ja {
          assert Words(a') == [Words(a)[0][1..]] + Words(a)[1..];
          assert Words(b') == [Words(b)[0][1..]] + Words(b)[1..];
          NormalizedUnique(a', b');
        } else {
          assert Words(a) == [[a[0]]] + Words(a');
          assert Words(b) == [[b[0]]] + Words(b');
          assert Words(a') == Words(a)[1..] == Words(b)[1..] == Words(b');
          if a' == [] {
            NoWords(b');
          }
          if b' == [] {
            NoWords(a');
          }
          NormalizedUnique(a', b');
        }
      }
    }
  }

  /**
   The contract of `NormalizeSpacesSpec` leaves one result: any normalized string
   with the words of `s`, empty exactly when `s` is, and starting or ending with a
   space exactly when `s` starts or ends with a white character, is `NormalizeSpaces(s)`.
   */
  lemma NormalizeSpacesUnique(s: string, r: string)
    requires Normalized(r) && Words(r) == Words(s)
    requires r == [] <==> s == []
    requires s != [] && r != [] ==> (r[0] == ' ' <==> IsWhite(s[0]))
    requires s != [] && r != [] ==> (r[|r| - 1] == ' ' <==> IsWhite(s[|s| - 1]))
    ensures r == NormalizeSpaces(s)
  {
    NormalizeSpacesSpec(s);
    NormalizedUnique(r, NormalizeSpaces(s));
  }

  /** Python's `str.rstrip()`: trailing whitespace removed. */
  function RStrip(s: string): (r: string)
    ensures |r| <= |s| && r == s[..|r|]
    ensures r == [] || !IsSpace(r[|r| - 1])
    ensures forall i :: |r| <= i < |s| ==> IsSpace(s[i])
  {
    if s != [] && IsSpace(s[|s| - 1]) then RStrip(s[..|s| - 1]) else s
  }
}
