/**
 * The filename sanitiser of the package (w2d/__init__.py, safe_filename).
 *
 * One pass over the title: a character that is not alphanumeric, '-' or
 * '_' becomes the replacement character, and a separator-class character
 * ('-' or the replacement) is dropped when the previous input character,
 * after replacement, was also separator-class. `str.isalnum` is modelled
 * on ASCII letters and digits.
 */
module Sanitizer {

  predicate IsAlnum(c: char)
  {
    ('a' <= c <= 'z') || ('A' <= c <= 'Z') || ('0' <= c <= '9')
  }

  /** The characters that survive unchanged. */
  predicate IsAllowed(c: char)
  {
    IsAlnum(c) || c == '-' || c == '_'
  }

  /** The character the loop works with after its replacement step. */
  function Mapped(c: char, replacement: char): char
  {
    if IsAllowed(c) then c else replacement
  }

  /** The separator class whose runs are collapsed. */
  predicate IsSeparator(c: char, replacement: char)
  {
    c == '-' || c == replacement
  }

  /** No two adjacent characters of t are both separators. */
  predicate NoSeparatorRun(t: string, replacement: char)
  {
    forall j :: 0 <= j < |t| - 1 ==> !(IsSeparator(t[j], replacement) && IsSeparator(t[j + 1], replacement))
  }

  /** Every character of t is alphanumeric, '-', '_' or the replacement. */
  predicate OnlySafe(t: string, replacement: char)
  {
    forall i :: 0 <= i < |t| ==> IsAllowed(t[i]) || t[i] == replacement
  }

  /**
   * Whether input position i contributes a character to the output: it is
   * dropped exactly when it and its predecessor both map into the separator class.
   */
  predicate Kept(s: string, i: nat, replacement: char)
    requires i < |s|
  {
    !(i > 0 && IsSeparator(Mapped(s[i], replacement), replacement)
            && IsSeparator(Mapped(s[i - 1], replacement), replacement))
  }

  /** Reference definition: the mapped characters of the kept positions, in order. */
  function Sanitized(s: string, replacement: char): (r: string)
    ensures |r| <= |s|
    decreases |s|
  {
    if s == [] then []
    else
      var n := |s| - 1;
      Sanitized(s[..n], replacement) + (if Kept(s, n, replacement) then [Mapped(s[n], replacement)] else [])
  }

  /** safe_filename: the character loop that carries the previous character. */
  method SafeFilename(filename: string, replacementChar: char) returns (r: string)
    ensures r == Sanitized(filename, replacementChar)
  {
    var result: string := [];
    var lastChar: string := "";
    for i := 0 to |filename|
      invariant result == Sanitized(filename[..i], replacementChar)
      invariant lastChar == if i == 0 then "" else [Mapped(filename[i - 1], replacementChar)]
    {
      var x := filename[i];
      if !(IsAlnum(x) || x == '-' || x == '_') {
        x := replacementChar;
      }
      if !(x == '-' || x == replacementChar) || !(lastChar == "-" || lastChar == [replacementChar]) {
        result := result + [x];
      }
      assert filename[..i + 1][..i] == filename[..i];
      lastChar := [x];
    }
    assert filename[..|filename|] == filename;
    r := result;
  }

  /** The output is empty exactly when the input is. */
  lemma {:induction false} SanitizedEmpty(s: string, replacement: char)
    ensures Sanitized(s, replacement) == [] <==> s == []
  {
    if s != [] {
      var n := |s| - 1;
      if n > 0 {
        SanitizedEmpty(s[..n], replacement);
      }
    }
  }

  /**
   * The last output character is a separator exactly when the last input
   * character maps to one: this is what `last_char` remembers.
   */
  lemma {:induction false} LastIsSeparator(s: string, replacement: char)
    requires s != []
    ensures var r := Sanitized(s, replacement);
      r != [] && (IsSeparator(r[|r| - 1], replacement) <==> IsSeparator(Mapped(s[|s| - 1], replacement), replacement))
  {
    var n := |s| - 1;
    SanitizedEmpty(s, replacement);
    if !Kept(s, n, replacement) {
      LastIsSeparator(s[..n], replacement);
      assert s[..n][n - 1] == s[n - 1];
    }
  }

  /** No two adjacent output characters are both separators. */
  lemma {:induction false} NoAdjacentSeparators(s: string, replacement: char)
    ensures NoSeparatorRun(Sanitized(s, replacement), replacement)
  {
    if s != [] {
      var n := |s| - 1;
      var prefix := Sanitized(s[..n], replacement);
      NoAdjacentSeparators(s[..n], replacement);
      if Kept(s, n, replacement) && n > 0 {
        LastIsSeparator(s[..n], replacement);
        assert s[..n][n - 1] == s[n - 1];
      }
    }
  }

  /** Every output character is alphanumeric, '-', '_' or the replacement. */
  lemma {:induction false} OnlySafeCharacters(s: string, replacement: char)
    ensures OnlySafe(Sanitized(s, replacement), replacement)
  {
    if s != [] {
      OnlySafeCharacters(s[..|s| - 1], replacement);
    }
  }

  /** Text that is already safe and has no separator runs is left as it is. */
  lemma {:induction false} SafeTextIsFixed(s: string, replacement: char)
    requires OnlySafe(s, replacement)
    requires NoSeparatorRun(s, replacement)
    ensures Sanitized(s, replacement) == s
  {
    if s != [] {
      var n := |s| - 1;
      SafeTextIsFixed(s[..n], replacement);
      assert s[..n] + [s[n]] == s;
    }
  }

  /** An all-alphanumeric title comes back unchanged (the replacement is not a letter or digit). */
  lemma AlnumUnchanged(s: string, replacement: char)
    requires !IsAlnum(replacement)
    requires forall i :: 0 <= i < |s| ==> IsAlnum(s[i])
    ensures Sanitized(s, replacement) == s
  {
    SafeTextIsFixed(s, replacement);
  }

  /** Sanitising a sanitised name changes nothing. */
  lemma Idempotent(s: string, replacement: char)
    ensures Sanitized(Sanitized(s, replacement), replacement) == Sanitized(s, replacement)
  {
    var r := Sanitized(s, replacement);
    OnlySafeCharacters(s, replacement);
    NoAdjacentSeparators(s, replacement);
    SafeTextIsFixed(r, replacement);
  }

  /**
   * Sanitising distributes over concatenation when the seam is not a pair
   * of separators.
   */
  lemma {:induction false} Concat(a: string, b: string, replacement: char)
    requires a != [] && b != [] ==>
      !(IsSeparator(Mapped(a[|a| - 1], replacement), replacement) && IsSeparator(Mapped(b[0], replacement), replacement))
    ensures Sanitized(a + b, replacement) == Sanitized(a, replacement) + Sanitized(b, replacement)
  {
    if b == [] {
      assert a + b == a;
    } else {
      var n := |b| - 1;
      var ab := a + b;
      var m := |ab| - 1;
      assert ab[..m] == a + b[..n];
      assert ab[m] == b[n];
      assert Kept(ab, m, replacement) == Kept(b, n, replacement) by {
        if n == 0 {
          assert a != [] ==> ab[m - 1] == a[|a| - 1];
        } else {
          assert ab[m - 1] == b[n - 1];
        }
      }
      Concat(a, b[..n], replacement);
    }
  }

  /** A run of punctuation and spaces becomes one replacement character. */
  lemma PunctuationRuns()
    ensures Sanitized(": ", '_') == "_"
    ensures Sanitized(" | ", '_') == "_"
  {
    var colon, pipe := ": ", " | ";
    assert colon[..1] == ":";
    assert pipe[..2] == " |" && pipe[..2][..1] == " ";
  }

  /** Words joined by punctuation runs: each run becomes a single replacement character. */
  lemma WordsAndRuns(w1: string, run1: string, w2: string, run2: string, w3: string)
    requires forall i :: 0 <= i < |w1| ==> IsAlnum(w1[i])
    requires forall i :: 0 <= i < |w2| ==> IsAlnum(w2[i])
    requires forall i :: 0 <= i < |w3| ==> IsAlnum(w3[i])
    requires w1 != [] && w2 != [] && w3 != []
    requires Sanitized(run1, '_') == "_" && Sanitized(run2, '_') == "_"
    ensures Sanitized(w1 + run1 + w2 + run2 + w3, '_') == w1 + "_" + w2 + "_" + w3
  {
    AlnumUnchanged(w1, '_');
    AlnumUnchanged(w2, '_');
    AlnumUnchanged(w3, '_');
    Concat(w1, run1, '_');
    Concat(w1 + run1, w2, '_');
    Concat(w1 + run1 + w2, run2, '_');
    Concat(w1 + run1 + w2 + run2, w3, '_');
  }

  /** The title "Hello: World | Test": colon, pipe and the spaces around them collapse. */
  lemma HelloWorldExample()
    ensures Sanitized("Hello: World | Test", '_') == "Hello_World_Test"
  {
    PunctuationRuns();
    WordsAndRuns("Hello", ": ", "World", " | ", "Test");
    assert "Hello" + ": " + "World" + " | " + "Test" == "Hello: World | Test";
  }
}
