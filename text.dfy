/** Text normalisation for word-wrapped model output
    (packages/opencode/src/util/text.ts). */
module Text {
  import opened JsText

  /** `text.replace(/\n /g, "\n")`: the global regular-expression replace
      scans left to right and rewrites every "\n " it meets to "\n". */
  function NormalizeLineSpaces(s: string): string {
    if |s| >= 2 && s[0] == '\n' && s[1] == ' ' then "\n" + NormalizeLineSpaces(s[2..])
    else if s == [] then []
    else [s[0]] + NormalizeLineSpaces(s[1..])
  }

  /** Reference reading of the same rewrite, one character at a time with one
      character of look-behind: a space is dropped exactly when the character
      before it (in the input) is a newline; every other character is kept. */
  function DropSpacesAfterNewline(afterNewline: bool, s: string): string
    decreases |s|
  {
    if s == [] then []
    else (if afterNewline && s[0] == ' ' then [] else [s[0]]) + DropSpacesAfterNewline(s[0] == '\n', s[1..])
  }

  /** The number of positions where "\n " occurs. */
  function Occurrences(s: string): nat {
    if s == [] then 0 else (if OccursAt(s, "\n ", 0) then 1 else 0) + Occurrences(s[1..])
  }

  lemma LookBehindIrrelevant(s: string)
    requires s == [] || s[0] != ' '
    ensures DropSpacesAfterNewline(true, s) == DropSpacesAfterNewline(false, s)
  {
  }

  /** The pattern rewrite and the look-behind filter agree on every input. */
  lemma {:induction false} NormalizeMatchesReference(s: string)
    ensures NormalizeLineSpaces(s) == DropSpacesAfterNewline(false, s)
  {
    if |s| >= 2 && s[0] == '\n' && s[1] == ' ' {
      NormalizeMatchesReference(s[2..]);
      assert s[1..][1..] == s[2..];
    } else if s != [] {
      NormalizeMatchesReference(s[1..]);
      if s[0] == '\n' {
        LookBehindIrrelevant(s[1..]);
      }
    }
  }

  /** Exactly one character disappears per occurrence of "\n ". */
  lemma {:induction false} NormalizeLength(s: string)
    ensures |NormalizeLineSpaces(s)| == |s| - Occurrences(s)
  {
    if |s| >= 2 && s[0] == '\n' && s[1] == ' ' {
      NormalizeLength(s[2..]);
      assert s[1..][1..] == s[2..];
      assert !OccursAt(s[1..], "\n ", 0);
    } else if s != [] {
      NormalizeLength(s[1..]);
      assert !OccursAt(s, "\n ", 0);
    }
  }

  lemma {:induction false} OccurrencesCount(s: string)
    ensures Occurrences(s) == 0 <==> forall k :: !OccursAt(s, "\n ", k)
  {
    if s != [] {
      OccurrencesCount(s[1..]);
      forall k | 0 <= k
        ensures OccursAt(s, "\n ", k + 1) <==> OccursAt(s[1..], "\n ", k)
      {
        if k + 3 <= |s| {
          assert s[k + 1..k + 3] == s[1..][k..k + 2];
        }
      }
      if Occurrences(s) != 0 {
        if !OccursAt(s, "\n ", 0) {
          var k :| OccursAt(s[1..], "\n ", k);
          assert OccursAt(s, "\n ", k + 1);
        }
      } else {
        forall k ensures !OccursAt(s, "\n ", k) {
          if k > 0 {
            assert !OccursAt(s[1..], "\n ", k - 1);
          }
        }
      }
    }
  }

  /** A string with no "\n " in it is returned unchanged (the empty string included). */
  lemma {:induction false} NormalizeUnchanged(s: string)
    requires !Contains(s, "\n ")
    ensures NormalizeLineSpaces(s) == s
  {
    OccurrencesCount(s);
    NormalizeLength(s);
    NormalizeMatchesReference(s);
    KeepsAllWithoutOccurrence(false, s);
  }

  lemma {:induction false} KeepsAllWithoutOccurrence(afterNewline: bool, s: string)
    requires forall k :: !OccursAt(s, "\n ", k)
    requires afterNewline ==> (s == [] || s[0] != ' ')
    ensures DropSpacesAfterNewline(afterNewline, s) == s
    decreases |s|
  {
    if s != [] {
      forall k ensures !OccursAt(s[1..], "\n ", k) {
        if 0 <= k && k + 3 <= |s| {
          assert s[1..][k..k + 2] == s[k + 1..k + 3];
          assert !OccursAt(s, "\n ", k + 1);
        }
      }
      if s[0] == '\n' && |s| >= 2 {
        assert !OccursAt(s, "\n ", 0);
        assert s[..2] == [s[0], s[1]];
      }
      KeepsAllWithoutOccurrence(s[0] == '\n', s[1..]);
      assert [s[0]] + s[1..] == s;
    }
  }

  /** A prefix without newlines passes through unchanged in front of the rest. */
  lemma {:induction false} HeadUnchanged(a: string, b: string)
    requires '\n' !in a
    ensures NormalizeLineSpaces(a + b) == a + NormalizeLineSpaces(b)
  {
    if a != [] {
      HeadUnchanged(a[1..], b);
      assert a[0] in a;
      var ab := a + b;
      assert ab[0] == a[0] && ab[1..] == a[1..] + b;
      assert NormalizeLineSpaces(ab) == [a[0]] + NormalizeLineSpaces(a[1..] + b);
      assert [a[0]] + (a[1..] + NormalizeLineSpaces(b)) == a + NormalizeLineSpaces(b);
    } else {
      assert a + b == b;
    }
  }

  /** "\n" followed by something other than a space starts the rest unchanged. */
  lemma NewlineKept(b: string)
    requires b == [] || b[0] != ' '
    ensures NormalizeLineSpaces("\n" + b) == "\n" + NormalizeLineSpaces(b)
  {
    assert ("\n" + b)[1..] == b;
  }

  /** "\n " loses its space and the rest is rewritten in turn. */
  lemma NewlineSpaceDropped(b: string)
    ensures NormalizeLineSpaces("\n " + b) == "\n" + NormalizeLineSpaces(b)
  {
    assert ("\n " + b)[2..] == b;
  }

  /** One space after a newline goes. */
  lemma SingleSpaceRemoved(line: string, rest: string)
    requires '\n' !in line
    ensures NormalizeLineSpaces(line + "\n " + rest) == line + "\n" + NormalizeLineSpaces(rest)
  {
    calc {
      NormalizeLineSpaces(line + "\n " + rest);
      { assert line + "\n " + rest == line + ("\n " + rest); }
      NormalizeLineSpaces(line + ("\n " + rest));
      { HeadUnchanged(line, "\n " + rest); }
      line + NormalizeLineSpaces("\n " + rest);
      { NewlineSpaceDropped(rest); }
      line + ("\n" + NormalizeLineSpaces(rest));
    }
  }

  /** Of two spaces after a newline only the first goes. */
  lemma OnlyOneSpaceRemoved(line: string, rest: string)
    requires '\n' !in line
    ensures NormalizeLineSpaces(line + "\n  " + rest) == line + "\n " + NormalizeLineSpaces(rest)
  {
    var tail := "\n " + (" " + rest);
    calc {
      NormalizeLineSpaces(line + "\n  " + rest);
      { assert line + "\n  " + rest == line + tail; }
      NormalizeLineSpaces(line + tail);
      { HeadUnchanged(line, tail); }
      line + NormalizeLineSpaces(tail);
      { NewlineSpaceDropped(" " + rest); }
      line + ("\n" + NormalizeLineSpaces(" " + rest));
      { HeadUnchanged(" ", rest); }
      line + ("\n" + (" " + NormalizeLineSpaces(rest)));
      line + "\n " + NormalizeLineSpaces(rest);
    }
  }

  /** A tab after a newline stays. */
  lemma TabKept(line: string, rest: string)
    requires '\n' !in line
    ensures NormalizeLineSpaces(line + "\n\t" + rest) == line + "\n\t" + NormalizeLineSpaces(rest)
  {
    var tail := "\n" + ("\t" + rest);
    calc {
      NormalizeLineSpaces(line + "\n\t" + rest);
      { assert line + "\n\t" + rest == line + tail; }
      NormalizeLineSpaces(line + tail);
      { HeadUnchanged(line, tail); }
      line + NormalizeLineSpaces(tail);
      { NewlineKept("\t" + rest); }
      line + ("\n" + NormalizeLineSpaces("\t" + rest));
      { HeadUnchanged("\t", rest); }
      line + ("\n" + ("\t" + NormalizeLineSpaces(rest)));
      line + "\n\t" + NormalizeLineSpaces(rest);
    }
  }

  /** The mixed case: single space, double space and tab in one input. */
  lemma MixedCase(s: string)
    requires s == "a\n b\n  c\n\td"
    ensures NormalizeLineSpaces(s) == "a\nb\n c\n\td"
  {
    var r1, r2 := s[3..], s[8..];
    calc {
      NormalizeLineSpaces(s);
      { assert s == "a" + "\n " + r1; SingleSpaceRemoved("a", r1); }
      "a" + "\n" + NormalizeLineSpaces(r1);
      { assert r1 == "b" + "\n  " + ("c" + r2); OnlyOneSpaceRemoved("b", "c" + r2); }
      "a" + "\n" + ("b" + "\n " + NormalizeLineSpaces("c" + r2));
      { HeadUnchanged("c", r2); }
      "a" + "\n" + ("b" + "\n " + ("c" + NormalizeLineSpaces(r2)));
      { assert r2 == "" + "\n\t" + "d"; TabKept("", "d"); }
      "a" + "\n" + ("b" + "\n " + ("c" + ("" + "\n\t" + NormalizeLineSpaces("d"))));
      { HeadUnchanged("d", ""); assert "d" + "" == "d"; }
      "a\nb\n c\n\td";
    }
  }
}
