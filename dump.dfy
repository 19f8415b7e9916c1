/** The pure parts of nuldc/dump.py: `slugify`, the archive basename built in
    `dump_collection`, and the query `main` derives from the marker file.

    `slugify` is four whole-string rewrites:
      1. `s.lower().strip()`
      2. `re.sub(r'[^\w\s-]', '', s)`: delete what is not a word character,
         whitespace or `-`
      3. `re.sub(r'[\s_-]+', '-', s)`: each maximal run of whitespace, `_`
         and `-` becomes one `-`
      4. `re.sub(r'^-+|-+$', '', s)`: delete the dashes at either end
    Each step is a function below; the lemmas state what the result is. */
module Dump {
  import opened Pages
  import opened PyStrings

  // =======================================================================
  // The shape of a slug

  predicate IsSlugChar(c: char)
  {
    IsLower(c) || IsDigit(c) || c == '-'
  }

  predicate AllSlugChars(s: string)
  {
    forall i :: 0 <= i < |s| ==> IsSlugChar(s[i])
  }

  predicate NoEdgeDash(s: string)
  {
    s == [] || (s[0] != '-' && s[|s| - 1] != '-')
  }

  predicate NoDoubleDash(s: string)
  {
    forall i :: 0 <= i < |s| - 1 ==> s[i] != '-' || s[i + 1] != '-'
  }

  /** Lower-case letters, digits and single inner dashes. */
  predicate IsSlug(s: string)
  {
    AllSlugChars(s) && NoEdgeDash(s) && NoDoubleDash(s)
  }

  /** The ASCII letters and digits of `s`, in order. */
  function Alnums(s: string): string
  {
    if s == [] then [] else (if IsAlnum(s[0]) then [s[0]] else []) + Alnums(s[1..])
  }

  // =======================================================================
  // Step 2: re.sub(r'[^\w\s-]', '', s)

  predicate IsSlugInput(c: char)
  {
    IsWordChar(c) || IsSpace(c) || c == '-'
  }

  function DropSpecial(s: string): string
  {
    if s == [] then []
    else (if IsSlugInput(s[0]) then [s[0]] else []) + DropSpecial(s[1..])
  }

  // =======================================================================
  // Step 3: re.sub(r'[\s_-]+', '-', s)

  predicate IsSeparator(c: char)
  {
    IsSpace(c) || c == '_' || c == '-'
  }

  /** The rest of `s` after its leading run of separators. */
  function DropSeparators(s: string): (r: string)
    ensures |r| <= |s| && r == s[|s| - |r|..]
    ensures forall i :: 0 <= i < |s| - |r| ==> IsSeparator(s[i])
    ensures r == [] || !IsSeparator(r[0])
  {
    if |s| > 0 && IsSeparator(s[0]) then DropSeparators(s[1..]) else s
  }

  /** Every maximal run of separators replaced by a single `-`; the lemmas
      `CollapseRun` and `CollapseKeepsAlnums` below state what it does. */
  function CollapseSeparators(s: string): (r: string)
    ensures NoDoubleDash(r)
    ensures s != [] && !IsSeparator(s[0]) ==> r != [] && r[0] == s[0]
    decreases |s|
  {
    if s == [] then []
    else if IsSeparator(s[0]) then "-" + CollapseSeparators(DropSeparators(s[1..]))
    else [s[0]] + CollapseSeparators(s[1..])
  }

  // =======================================================================
  // Step 4: re.sub(r'^-+|-+$', '', s)
  //
  // `$` is taken as the end of the string. Without MULTILINE, Python's `$`
  // also matches just before a final newline ("a-\n" becomes "a\n"), but no
  // newline reaches this step inside slugify: step 3 turns every whitespace
  // run into `-` (CollapseOfSlugOrSeparator).

  function TrimLeadingDashes(s: string): string
  {
    if |s| > 0 && s[0] == '-' then TrimLeadingDashes(s[1..]) else s
  }

  function TrimTrailingDashes(s: string): string
  {
    if |s| > 0 && s[|s| - 1] == '-' then TrimTrailingDashes(s[..|s| - 1]) else s
  }

  function TrimDashes(s: string): string
  {
    TrimTrailingDashes(TrimLeadingDashes(s))
  }

  /** slugify, for ASCII input. */
  function Slugify(s: string): string
    requires IsAsciiString(s)
  {
    TrimDashes(CollapseSeparators(DropSpecial(Strip(Lower(s)))))
  }

  /** Step 2 works character by character: it keeps a word character, a
      whitespace character or `-`, and deletes any other character. Together
      with `DropSpecialConcat` this determines `DropSpecial` on every string. */
  lemma DropSpecialOfChar(c: char)
    ensures DropSpecial([c]) == (if IsSlugInput(c) then [c] else [])
  {
    assert [c][1..] == [];
  }

  lemma {:induction false} DropSpecialConcat(a: string, b: string)
    ensures DropSpecial(a + b) == DropSpecial(a) + DropSpecial(b)
    decreases a
  {
    if a == [] {
      assert a + b == b;
    } else {
      var head := if IsSlugInput(a[0]) then [a[0]] else [];
      calc {
        DropSpecial(a + b);
        { assert (a + b)[0] == a[0]; assert (a + b)[1..] == a[1..] + b; }
        head + DropSpecial(a[1..] + b);
        { DropSpecialConcat(a[1..], b); }
        head + (DropSpecial(a[1..]) + DropSpecial(b));
        DropSpecial(a) + DropSpecial(b);
      }
    }
  }

  // =======================================================================
  // Lemmas about the characters

  /** What can be left of a lower-cased string once step 2 has run. */
  predicate AllSlugOrSeparator(s: string)
  {
    forall i :: 0 <= i < |s| ==> IsSlugChar(s[i]) || IsSeparator(s[i])
  }

  lemma {:induction false} DropSpecialOfLower(s: string)
    requires forall i :: 0 <= i < |s| ==> !IsUpper(s[i])
    ensures AllSlugOrSeparator(DropSpecial(s))
    decreases s
  {
    if s != [] {
      DropSpecialOfLower(s[1..]);
    }
  }

  lemma SuffixSlugOrSeparator(s: string, k: nat)
    requires AllSlugOrSeparator(s) && k <= |s|
    ensures AllSlugOrSeparator(s[k..])
  {
    assert forall i :: 0 <= i < |s| - k ==> s[k..][i] == s[k + i];
  }

  lemma AllSlugCharsConcat(a: string, b: string)
    requires AllSlugChars(a) && AllSlugChars(b)
    ensures AllSlugChars(a + b)
  {
    assert forall i :: |a| <= i < |a + b| ==> (a + b)[i] == b[i - |a|];
  }

  lemma {:induction false} CollapseOfSlugOrSeparator(s: string)
    requires AllSlugOrSeparator(s)
    ensures AllSlugChars(CollapseSeparators(s))
    decreases |s|
  {
    if s != [] {
      if IsSeparator(s[0]) {
        var t := DropSeparators(s[1..]);
        SuffixSlugOrSeparator(s, 1);
        SuffixSlugOrSeparator(s[1..], |s[1..]| - |t|);
        CollapseOfSlugOrSeparator(t);
        AllSlugCharsConcat("-", CollapseSeparators(t));
      } else {
        SuffixSlugOrSeparator(s, 1);
        CollapseOfSlugOrSeparator(s[1..]);
        AllSlugCharsConcat([s[0]], CollapseSeparators(s[1..]));
      }
    }
  }

  lemma StrippedHasNoUpper(s: string)
    requires IsAsciiString(s)
    ensures forall i :: 0 <= i < |Strip(Lower(s))| ==> !IsUpper(Strip(Lower(s))[i])
  {
    var lowered := Lower(s);
    LowerIsLower(s);
    StripKeepsNoUpper(lowered);
  }

  lemma StripKeepsNoUpper(s: string)
    requires forall i :: 0 <= i < |s| ==> !IsUpper(s[i])
    ensures forall i :: 0 <= i < |Strip(s)| ==> !IsUpper(Strip(s)[i])
  {
    var a, b := StripIsSlice(s);
    forall i | 0 <= i < |Strip(s)|
      ensures !IsUpper(Strip(s)[i])
    {
      assert Strip(s)[i] == s[a + i];
    }
  }

  lemma TrimDashesOfSlugChars(s: string)
    requires AllSlugChars(s) && NoDoubleDash(s)
    ensures IsSlug(TrimDashes(s))
  {
    var c, d := TrimDashesIsSlice(s);
    var slug := s[c..d];
    assert forall i :: 0 <= i < |slug| ==> slug[i] == s[c + i];
  }

  lemma {:induction false} DropSeparatorsOfRun(run: string, rest: string)
    requires forall i :: 0 <= i < |run| ==> IsSeparator(run[i])
    requires rest == [] || !IsSeparator(rest[0])
    ensures DropSeparators(run + rest) == rest
    decreases run
  {
    if run == [] {
      assert run + rest == rest;
    } else {
      assert (run + rest)[1..] == run[1..] + rest;
      DropSeparatorsOfRun(run[1..], rest);
    }
  }

  /** A whole run of whitespace, `_` and `-` becomes exactly one `-`. */
  lemma CollapseRun(run: string, rest: string)
    requires |run| > 0 && forall i :: 0 <= i < |run| ==> IsSeparator(run[i])
    requires rest == [] || !IsSeparator(rest[0])
    ensures CollapseSeparators(run + rest) == "-" + CollapseSeparators(rest)
  {
    var s := run + rest;
    assert IsSeparator(s[0]) by { assert s[0] == run[0]; }
    assert DropSeparators(s[1..]) == rest by {
      assert s[1..] == run[1..] + rest;
      DropSeparatorsOfRun(run[1..], rest);
    }
    CollapseAtSeparator(s);
  }

  lemma CollapseAtSeparator(s: string)
    requires |s| > 0 && IsSeparator(s[0])
    ensures CollapseSeparators(s) == "-" + CollapseSeparators(DropSeparators(s[1..]))
  {
  }

  // =======================================================================
  // Lemmas about the letters and digits

  lemma {:induction false} AlnumsConcat(a: string, b: string)
    ensures Alnums(a + b) == Alnums(a) + Alnums(b)
    decreases a
  {
    if a == [] {
      assert a + b == b;
    } else {
      var head := if IsAlnum(a[0]) then [a[0]] else [];
      calc {
        Alnums(a + b);
        head + Alnums((a + b)[1..]);
        { assert (a + b)[1..] == a[1..] + b; }
        head + Alnums(a[1..] + b);
        { AlnumsConcat(a[1..], b); }
        head + (Alnums(a[1..]) + Alnums(b));
        (head + Alnums(a[1..])) + Alnums(b);
        Alnums(a) + Alnums(b);
      }
    }
  }

  lemma {:induction false} AlnumsOfNone(s: string)
    requires forall i :: 0 <= i < |s| ==> !IsAlnum(s[i])
    ensures Alnums(s) == []
    decreases s
  {
    if s != [] {
      AlnumsOfNone(s[1..]);
    }
  }

  lemma {:induction false} AlnumsEmpty(s: string)
    ensures Alnums(s) == [] <==> forall i :: 0 <= i < |s| ==> !IsAlnum(s[i])
    decreases s
  {
    if s != [] {
      AlnumsEmpty(s[1..]);
      assert forall i :: 1 <= i < |s| ==> s[i] == s[1..][i - 1];
    }
  }

  lemma {:induction false} AlnumsDropFront(s: string, a: nat)
    requires a <= |s|
    requires forall i :: 0 <= i < a ==> !IsAlnum(s[i])
    ensures Alnums(s[a..]) == Alnums(s)
    decreases a
  {
    if a > 0 {
      assert s[a..] == s[1..][a - 1..];
      AlnumsDropFront(s[1..], a - 1);
    }
  }

  lemma AlnumsTakeFront(s: string, b: nat)
    requires b <= |s|
    requires forall i :: b <= i < |s| ==> !IsAlnum(s[i])
    ensures Alnums(s[..b]) == Alnums(s)
  {
    calc {
      Alnums(s);
      { assert s == s[..b] + s[b..]; }
      Alnums(s[..b] + s[b..]);
      { AlnumsConcat(s[..b], s[b..]); }
      Alnums(s[..b]) + Alnums(s[b..]);
      { AlnumsOfNone(s[b..]); }
      Alnums(s[..b]);
    }
  }

  /** Cutting off ends that hold no letter or digit keeps the letters and digits. */
  lemma AlnumsOfSlice(s: string, a: nat, b: nat)
    requires a <= b <= |s|
    requires forall i :: 0 <= i < a ==> !IsAlnum(s[i])
    requires forall i :: b <= i < |s| ==> !IsAlnum(s[i])
    ensures Alnums(s[a..b]) == Alnums(s)
  {
    assert s[a..b] == s[..b][a..];
    AlnumsDropFront(s[..b], a);
    AlnumsTakeFront(s, b);
  }

  lemma {:induction false} DropSpecialKeepsAlnums(s: string)
    ensures Alnums(DropSpecial(s)) == Alnums(s)
    decreases s
  {
    if s != [] {
      DropSpecialKeepsAlnums(s[1..]);
      var head := if IsSlugInput(s[0]) then [s[0]] else [];
      AlnumsConcat(head, DropSpecial(s[1..]));
    }
  }

  lemma {:induction false} CollapseKeepsAlnums(s: string)
    ensures Alnums(CollapseSeparators(s)) == Alnums(s)
    decreases |s|
  {
    if s != [] {
      if IsSeparator(s[0]) {
        var t := DropSeparators(s[1..]);
        calc {
          Alnums(CollapseSeparators(s));
          Alnums("-" + CollapseSeparators(t));
          { AlnumsConcat("-", CollapseSeparators(t)); }
          Alnums(CollapseSeparators(t));
          { CollapseKeepsAlnums(t); }
          Alnums(t);
          { DropSeparatorsKeepsAlnums(s[1..]); }
          Alnums(s[1..]);
          Alnums(s);
        }
      } else {
        CollapseKeepsAlnums(s[1..]);
        AlnumsConcat([s[0]], CollapseSeparators(s[1..]));
      }
    }
  }

  lemma DropSeparatorsKeepsAlnums(s: string)
    ensures Alnums(DropSeparators(s)) == Alnums(s)
  {
    var t := DropSeparators(s);
    AlnumsOfSlice(s, |s| - |t|, |s|);
  }

  lemma StripKeepsAlnums(s: string)
    ensures Alnums(Strip(s)) == Alnums(s)
  {
    var a, b := StripIsSlice(s);
    AlnumsOfSlice(s, a, b);
  }

  lemma TrimDashesKeepsAlnums(s: string)
    ensures Alnums(TrimDashes(s)) == Alnums(s)
  {
    var a, b := TrimDashesIsSlice(s);
    AlnumsOfSlice(s, a, b);
  }

  /** `^-+` removes the leading run of dashes and nothing else. */
  lemma {:induction false} TrimLeadingDashesIsSuffix(s: string)
    ensures var r := TrimLeadingDashes(s);
            |r| <= |s| && r == s[|s| - |r|..]
            && (forall i :: 0 <= i < |s| - |r| ==> s[i] == '-')
            && (r == [] || r[0] != '-')
    decreases s
  {
    if |s| > 0 && s[0] == '-' {
      TrimLeadingDashesIsSuffix(s[1..]);
    }
  }

  /** `-+$` removes the trailing run of dashes and nothing else. */
  lemma {:induction false} TrimTrailingDashesIsPrefix(s: string)
    ensures var r := TrimTrailingDashes(s);
            |r| <= |s| && r == s[..|r|]
            && (forall i :: |r| <= i < |s| ==> s[i] == '-')
            && (r == [] || r[|r| - 1] != '-')
    decreases |s|
  {
    if |s| > 0 && s[|s| - 1] == '-' {
      TrimTrailingDashesIsPrefix(s[..|s| - 1]);
    }
  }

  /** `TrimDashes` keeps a slice `s[a..b]` and removes dashes only. */
  lemma TrimDashesIsSlice(s: string) returns (a: nat, b: nat)
    ensures a <= b <= |s| && TrimDashes(s) == s[a..b]
    ensures forall i :: 0 <= i < a ==> s[i] == '-'
    ensures forall i :: b <= i < |s| ==> s[i] == '-'
    ensures NoEdgeDash(TrimDashes(s))
  {
    var l := TrimLeadingDashes(s);
    TrimLeadingDashesIsSuffix(s);
    TrimTrailingDashesIsPrefix(l);
    a := |s| - |l|;
    b := a + |TrimTrailingDashes(l)|;
    assert TrimTrailingDashes(l) == l[..b - a];
  }

  // =======================================================================
  // What slugify returns

  /** The output is a slug: only lower-case letters, digits and `-`, no `-`
      at either end and never two in a row (so no whitespace and no `_`). */
  lemma SlugifyIsSlug(s: string)
    requires IsAsciiString(s)
    ensures IsSlug(Slugify(s))
    ensures forall i :: 0 <= i < |Slugify(s)| ==> !IsSpace(Slugify(s)[i]) && Slugify(s)[i] != '_'
  {
    var stripped := Strip(Lower(s));
    StrippedHasNoUpper(s);
    DropSpecialOfLower(stripped);
    var kept := DropSpecial(stripped);
    CollapseOfSlugOrSeparator(kept);
    TrimDashesOfSlugChars(CollapseSeparators(kept));
  }

  /** The letters and digits of the lower-cased input survive, in order. */
  lemma SlugifyKeepsAlnums(s: string)
    requires IsAsciiString(s)
    ensures Alnums(Slugify(s)) == Alnums(Lower(s))
  {
    var lowered := Lower(s);
    var stripped := Strip(lowered);
    var kept := DropSpecial(stripped);
    var collapsed := CollapseSeparators(kept);
    calc {
      Alnums(Slugify(s));
      Alnums(TrimDashes(collapsed));
      { TrimDashesKeepsAlnums(collapsed); }
      Alnums(collapsed);
      { CollapseKeepsAlnums(kept); }
      Alnums(kept);
      { DropSpecialKeepsAlnums(stripped); }
      Alnums(stripped);
      { StripKeepsAlnums(lowered); }
      Alnums(lowered);
    }
  }

  /** The output is empty exactly when the input has no ASCII letter or digit:
      punctuation, whitespace, `_` and `-` alone give the empty string. */
  lemma SlugifyEmptyIff(s: string)
    requires IsAsciiString(s)
    ensures Slugify(s) == [] <==> forall i :: 0 <= i < |s| ==> !IsAlnum(s[i])
  {
    var r := Slugify(s);
    SlugifyIsSlug(s);
    SlugifyKeepsAlnums(s);
    AlnumsEmpty(r);
    AlnumsEmpty(Lower(s));
    LowerIsLower(s);
    if r != [] {
      assert IsAlnum(r[0]);
    }
  }

  lemma {:induction false} DropSpecialUnchanged(s: string)
    requires forall i :: 0 <= i < |s| ==> IsSlugInput(s[i])
    ensures DropSpecial(s) == s
    decreases s
  {
    if s != [] {
      DropSpecialUnchanged(s[1..]);
    }
  }

  lemma SlugCharsTail(s: string)
    requires |s| > 0 && AllSlugChars(s) && NoDoubleDash(s)
    ensures AllSlugChars(s[1..]) && NoDoubleDash(s[1..])
  {
    assert forall i :: 0 <= i < |s| - 1 ==> s[1..][i] == s[i + 1];
  }

  lemma {:induction false} CollapseUnchanged(s: string)
    requires AllSlugChars(s) && NoDoubleDash(s)
    ensures CollapseSeparators(s) == s
    decreases |s|
  {
    if s != [] {
      SlugCharsTail(s);
      if s[0] == '-' {
        calc {
          CollapseSeparators(s);
          "-" + CollapseSeparators(DropSeparators(s[1..]));
          { assert s[1..] == [] || !IsSeparator(s[1]); }
          "-" + CollapseSeparators(s[1..]);
          { CollapseUnchanged(s[1..]); }
          [s[0]] + s[1..];
          s;
        }
      } else {
        calc {
          CollapseSeparators(s);
          [s[0]] + CollapseSeparators(s[1..]);
          { CollapseUnchanged(s[1..]); }
          [s[0]] + s[1..];
          s;
        }
      }
    }
  }

  lemma LowerUnchanged(s: string)
    requires forall i :: 0 <= i < |s| ==> IsAscii(s[i]) && !IsUpper(s[i])
    ensures IsAsciiString(s) && Lower(s) == s
  {
    LowerIsLower(s);
  }

  lemma TrimDashesUnchanged(s: string)
    requires NoEdgeDash(s)
    ensures TrimDashes(s) == s
  {
    assert TrimLeadingDashes(s) == s;
  }

  /** A slug is its own slug. */
  lemma SlugUnchanged(s: string)
    requires IsSlug(s)
    ensures IsAsciiString(s) && Slugify(s) == s
  {
    assert IsAsciiString(s) && Lower(s) == s by { LowerUnchanged(s); }
    assert Strip(s) == s by {
      assert s == [] || (IsSlugChar(s[0]) && IsSlugChar(s[|s| - 1]));
      StripUnchanged(s);
    }
    assert DropSpecial(s) == s by { DropSpecialUnchanged(s); }
    assert CollapseSeparators(s) == s by { CollapseUnchanged(s); }
    assert TrimDashes(s) == s by { TrimDashesUnchanged(s); }
  }

  /** A non-empty run of lower-case letters and digits. */
  predicate IsWord(w: string)
  {
    |w| > 0 && forall i :: 0 <= i < |w| ==> IsLower(w[i]) || IsDigit(w[i])
  }

  /** Collapsing passes over a prefix that holds no separator. */
  lemma {:induction false} CollapseAfterWord(w: string, t: string)
    requires forall i :: 0 <= i < |w| ==> !IsSeparator(w[i])
    ensures CollapseSeparators(w + t) == w + CollapseSeparators(t)
    decreases w
  {
    if w == [] {
      assert w + t == t;
    } else {
      calc {
        CollapseSeparators(w + t);
        { assert (w + t)[0] == w[0]; assert (w + t)[1..] == w[1..] + t; }
        [w[0]] + CollapseSeparators(w[1..] + t);
        { CollapseAfterWord(w[1..], t); }
        [w[0]] + (w[1..] + CollapseSeparators(t));
        { assert w == [w[0]] + w[1..]; }
        w + CollapseSeparators(t);
      }
    }
  }

  /** Characters that steps 1 and 2 leave as they are. */
  predicate AllPlain(s: string)
  {
    forall i :: 0 <= i < |s| ==> IsAscii(s[i]) && !IsUpper(s[i]) && IsSlugInput(s[i])
  }

  lemma AllPlainConcat(a: string, b: string)
    requires AllPlain(a) && AllPlain(b)
    ensures AllPlain(a + b)
  {
    assert forall i :: 0 <= i < |a| ==> (a + b)[i] == a[i];
    assert forall i :: |a| <= i < |a + b| ==> (a + b)[i] == b[i - |a|];
  }

  lemma JoinedEnds(a: string, mid: string, b: string)
    requires |a| > 0 && |b| > 0
    ensures (a + mid + b)[0] == a[0] && (a + mid + b)[|a + mid + b| - 1] == b[|b| - 1]
  {
  }

  /** Collapsing turns the run between two words into one `-`. */
  lemma CollapseJoinsWords(w1: string, run: string, w2: string)
    requires IsWord(w1) && IsWord(w2)
    requires |run| > 0 && forall i :: 0 <= i < |run| ==> IsSeparator(run[i])
    ensures CollapseSeparators(w1 + run + w2) == w1 + "-" + w2
  {
    calc {
      CollapseSeparators(w1 + run + w2);
      { assert w1 + run + w2 == w1 + (run + w2); }
      CollapseSeparators(w1 + (run + w2));
      { CollapseAfterWord(w1, run + w2); }
      w1 + CollapseSeparators(run + w2);
      { CollapseRun(run, w2); }
      w1 + ("-" + CollapseSeparators(w2));
      { CollapseUnchanged(w2); }
      w1 + ("-" + w2);
      w1 + "-" + w2;
    }
  }

  /** Steps 1 and 2 leave alone a string of plain characters that does not
      begin or end with whitespace. */
  lemma SlugifyOfPlain(s: string)
    requires AllPlain(s)
    requires s == [] || (!IsSpace(s[0]) && !IsSpace(s[|s| - 1]))
    ensures IsAsciiString(s) && Slugify(s) == TrimDashes(CollapseSeparators(s))
  {
    assert IsAsciiString(s) && Lower(s) == s by { LowerUnchanged(s); }
    assert Strip(s) == s by { StripUnchanged(s); }
    assert DropSpecial(s) == s by { DropSpecialUnchanged(s); }
  }

  /** Two words separated by any run of whitespace, `_` and `-` become the
      two words joined by a single `-`: this is where a slug's dashes come
      from. */
  lemma SlugifyJoinsWords(w1: string, run: string, w2: string)
    requires IsWord(w1) && IsWord(w2)
    requires |run| > 0 && forall i :: 0 <= i < |run| ==> IsSeparator(run[i]) && IsAscii(run[i])
    ensures IsAsciiString(w1 + run + w2) && Slugify(w1 + run + w2) == w1 + "-" + w2
  {
    var s := w1 + run + w2;
    var joined := w1 + "-" + w2;
    assert AllPlain(s) by {
      AllPlainConcat(w1, run);
      AllPlainConcat(w1 + run, w2);
    }
    JoinedEnds(w1, run, w2);
    SlugifyOfPlain(s);
    CollapseJoinsWords(w1, run, w2);
    JoinedEnds(w1, "-", w2);
    TrimDashesUnchanged(joined);
  }

  /** slugify is idempotent. */
  lemma SlugifyIdempotent(s: string)
    requires IsAsciiString(s)
    ensures IsAsciiString(Slugify(s)) && Slugify(Slugify(s)) == Slugify(s)
  {
    SlugifyIsSlug(s);
    SlugUnchanged(Slugify(s));
  }

  // =======================================================================
  // dump_collection: the archive basename

  /** `data['data'][0]['collection']['title']` when that is a string; None
      where Python raises (no first record, a missing key, a title that is
      not a string and so has no `lower`). */
  function CollectionTitle(records: seq<Json>): Option<string>
  {
    if |records| > 0 && records[0].Obj? && "collection" in records[0].fields then
      var collection := records[0].fields["collection"];
      if collection.Obj? && "title" in collection.fields && collection.fields["title"].Str?
      then Some(collection.fields["title"].s)
      else None
    else None
  }

  predicate TitleIsAscii(records: seq<Json>)
  {
    CollectionTitle(records).Some? ==> IsAsciiString(CollectionTitle(records).value)
  }

  /** `f"{slugify(col_title)}-{col_id}"`, or None where the title lookup raises. */
  function ArchiveBasename(records: seq<Json>, colId: string): Option<string>
    requires TitleIsAscii(records)
  {
    match CollectionTitle(records)
    case None => None
    case Some(title) => Some(Slugify(title) + "-" + colId)
  }

  /** There is a basename exactly when the first record has a string title;
      it is the title's slug, a dash, and the collection id. */
  lemma ArchiveBasenameShape(records: seq<Json>, colId: string)
    requires TitleIsAscii(records)
    ensures ArchiveBasename(records, colId).Some? <==> CollectionTitle(records).Some?
    ensures ArchiveBasename(records, colId).Some? ==>
              var name := ArchiveBasename(records, colId).value;
              var k := |name| - |colId| - 1;
              0 <= k && IsSlug(name[..k]) && name[..k] == Slugify(CollectionTitle(records).value)
              && name[k..] == "-" + colId
  {
    if CollectionTitle(records).Some? {
      var title := CollectionTitle(records).value;
      var slug := Slugify(title);
      assert IsSlug(slug) by { SlugifyIsSlug(title); }
      BasenameSplits(slug, colId);
    }
  }

  lemma BasenameSplits(slug: string, colId: string)
    ensures var name := slug + "-" + colId;
            var k := |name| - |colId| - 1;
            k == |slug| && name[..k] == slug && name[k..] == "-" + colId
  {
    var name := slug + "-" + colId;
    assert name[..|slug|] == slug;
    assert name[|slug|..] == "-" + colId;
  }

  /** A title without letters or digits leaves a basename that starts with `-`. */
  lemma ArchiveBasenameOfUntitled(records: seq<Json>, colId: string)
    requires TitleIsAscii(records) && CollectionTitle(records).Some?
    requires forall i :: 0 <= i < |CollectionTitle(records).value| ==> !IsAlnum(CollectionTitle(records).value[i])
    ensures ArchiveBasename(records, colId) == Some("-" + colId)
  {
    var title := CollectionTitle(records).value;
    SlugifyEmptyIff(title);
    var slug := Slugify(title);
    assert slug == [];
    assert slug + "-" + colId == "-" + colId;
  }

  // =======================================================================
  // main: the query built from the marker file

  /** The line terminators a text-mode `readline` recognises. */
  predicate IsLineBreak(c: char)
  {
    c == '\n' || c == '\r'
  }

  /** The first line `f.readline()` returns, without its terminator. */
  function FirstLine(contents: string): (line: string)
    ensures |line| <= |contents| && line == contents[..|line|]
    ensures forall i :: 0 <= i < |line| ==> !IsLineBreak(line[i])
    ensures |line| < |contents| ==> IsLineBreak(contents[|line|])
  {
    if contents == [] || IsLineBreak(contents[0]) then [] else [contents[0]] + FirstLine(contents[1..])
  }

  const QueryPrefix: string := "indexed_at:>="

  /** The query `main` passes to `dump_collections`: `marker` holds the
      contents of `_updated_at.txt`, or None when the file does not exist. */
  function IncrementalQuery(marker: Option<string>): string
  {
    match marker
    case None => "*"
    case Some(contents) => QueryPrefix + Strip(FirstLine(contents))
  }

  /** "*" exactly when there is no marker file; otherwise the prefix and a
      date part with no line break and no whitespace at either end. */
  lemma IncrementalQueryShape(marker: Option<string>)
    ensures IncrementalQuery(marker) == "*" <==> marker.None?
    ensures marker.Some? ==>
              var q := IncrementalQuery(marker);
              var date := q[|QueryPrefix|..];
              |QueryPrefix| <= |q| && q[..|QueryPrefix|] == QueryPrefix
              && (forall i :: 0 <= i < |date| ==> !IsLineBreak(date[i]))
              && (date == [] || (!IsSpace(date[0]) && !IsSpace(date[|date| - 1])))
  {
    if marker.Some? {
      var line := FirstLine(marker.value);
      var a, b := StripIsSlice(line);
      var q := IncrementalQuery(marker);
      assert q[|QueryPrefix|..] == line[a..b];
    }
  }

  lemma {:induction false} FirstLineOf(line: string, rest: string)
    requires forall i :: 0 <= i < |line| ==> !IsLineBreak(line[i])
    requires rest == [] || IsLineBreak(rest[0])
    ensures FirstLine(line + rest) == line
    decreases line
  {
    if line == [] {
      assert line + rest == rest;
    } else {
      assert (line + rest)[1..] == line[1..] + rest;
      FirstLineOf(line[1..], rest);
    }
  }

  /** What dump_collections writes (a date, then nothing or a new line) reads
      back as that date. */
  lemma IncrementalQueryRoundTrip(date: string, rest: string)
    requires forall i :: 0 <= i < |date| ==> !IsLineBreak(date[i])
    requires date == [] || (!IsSpace(date[0]) && !IsSpace(date[|date| - 1]))
    requires rest == [] || IsLineBreak(rest[0])
    ensures IncrementalQuery(Some(date + rest)) == QueryPrefix + date
  {
    FirstLineOf(date, rest);
    StripUnchanged(date);
  }

  /** `strftime('%Y-%m-%d')`. */
  predicate IsDateStamp(d: string)
  {
    |d| == 10 && d[4] == '-' && d[7] == '-'
    && forall i :: 0 <= i < 10 && i != 4 && i != 7 ==> IsDigit(d[i])
  }

  lemma DateStampRoundTrip(d: string)
    requires IsDateStamp(d)
    ensures IncrementalQuery(Some(d)) == QueryPrefix + d
  {
    assert d + [] == d;
    IncrementalQueryRoundTrip(d, []);
  }
}
