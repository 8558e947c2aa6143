/**
 * Transcripts worked through the substitution table. Each `...Step` lemma
 * states what one entry does to the text it meets; the assembling lemmas
 * run the table entry by entry, and skip the stretches of entries whose
 * words need a letter the text does not hold. Together they show that the
 * substitutions apply in table order and match inside words.
 */
module VoiceExamples {
  import opened Strings
  import opened VoiceParser

  // ----- running the table in pieces -----

  /** The first `k + 1` entries are the first `k`, then entry `k`. */
  lemma SubstituteStep(x: string, k: nat)
    requires k < |Replacements|
    ensures SubstituteAll(x, Replacements[..k + 1])
         == ReplaceAll(SubstituteAll(x, Replacements[..k]), Replacements[k].word, Replacements[k].value)
  {
    assert Replacements[..k + 1][..k] == Replacements[..k];
  }

  /** The first four entries, one after the other. */
  lemma UpToTwo(x: string, a: string, b: string, c: string, d: string)
    requires ReplaceAll(x, "for", "4") == a && ReplaceAll(a, "four", "4") == b
    requires ReplaceAll(b, "to", "2") == c && ReplaceAll(c, "two", "2") == d
    ensures SubstituteAll(x, Replacements[..4]) == d
  {
    assert Replacements[..0] == [];
    SubstituteStep(x, 0);
    SubstituteStep(x, 1);
    SubstituteStep(x, 2);
    SubstituteStep(x, 3);
  }

  /** Entries "be" and "bee", after the first nine. */
  lemma UpToBee(x: string, y: string, z: string, w: string)
    requires SubstituteAll(x, Replacements[..9]) == y
    requires ReplaceAll(y, "be", "b") == z && ReplaceAll(z, "bee", "b") == w
    ensures SubstituteAll(x, Replacements[..11]) == w
  {
    SubstituteStep(x, 9);
    SubstituteStep(x, 10);
  }

  /** Entry "for", then entries up to "sea" finding nothing. */
  lemma UpToSea(x: string, y: string)
    requires ReplaceAll(x, "for", "4") == y
    requires 'o' !in y && 't' !in y && 'i' !in y && 's' !in y
    ensures SubstituteAll(x, Replacements[..9]) == y
  {
    assert Replacements[..0] == [];
    SubstituteStep(x, 0);
    EntriesUpToSea(y, 1);
    Chain(x, 1, 9, y, y);
  }

  /**
   * Substituting with the first `m` entries is substituting with the first
   * `n`, then with entries `n` up to `m`.
   */
  lemma Chain(x: string, n: nat, m: nat, y: string, z: string)
    requires n <= m <= |Replacements|
    requires SubstituteAll(x, Replacements[..n]) == y
    requires SubstituteAll(y, Replacements[n..m]) == z
    ensures SubstituteAll(x, Replacements[..m]) == z
  {
    assert Replacements[..m] == Replacements[..n] + Replacements[n..m];
    SubstituteAllConcat(x, Replacements[..n], Replacements[n..m]);
  }

  /** Entries `n` up to "sea" all need an `o`, `t`, `i` or `s`. */
  lemma EntriesUpToSea(s: string, n: nat)
    requires n <= 9
    requires 'o' !in s && 't' !in s && 'i' !in s && 's' !in s
    ensures SubstituteAll(s, Replacements[n..9]) == s
  {
    forall e | e in Replacements[n..9]
      ensures !Occurs(e.word, s)
    {
      var c := if 'o' in e.word then 'o' else if 't' in e.word then 't'
               else if 'i' in e.word then 'i' else 's';
      ForeignCharAbsent(e.word, s, c);
    }
    SubstituteAllAbsent(s, Replacements[n..9]);
  }

  /**
   * Entries "too" to "before" find nothing in text without an `o`, `t`,
   * `i` or `s` and without "be".
   */
  lemma EntriesFromToo(s: string)
    requires 'o' !in s && 't' !in s && 'i' !in s && 's' !in s && !Occurs("be", s)
    ensures SubstituteAll(s, Replacements[4..15]) == s
  {
    forall e | e in Replacements[4..15]
      ensures !Occurs(e.word, s)
    {
      if e.word == "be" {
      } else if e.word == "bee" {
        AbsentInside("be", "bee", 0, s);
      } else {
        var c := if 'o' in e.word then 'o' else if 't' in e.word then 't'
                 else if 'i' in e.word then 'i' else 's';
        ForeignCharAbsent(e.word, s, c);
      }
    }
    SubstituteAllAbsent(s, Replacements[4..15]);
  }

  /** Entries "one" to "before" all need an `o`. */
  lemma EntriesFromOne(s: string)
    requires 'o' !in s
    ensures SubstituteAll(s, Replacements[11..15]) == s
  {
    forall e | e in Replacements[11..15]
      ensures !Occurs(e.word, s)
    {
      ForeignCharAbsent(e.word, s, 'o');
    }
    SubstituteAllAbsent(s, Replacements[11..15]);
  }

  // ----- "before" -----

  /** "for" inside "before" is rewritten. */
  lemma BeforeForStep()
    ensures ReplaceAll("before", "for", "4") == "be4e"
  {
    ReplaceAllNoStart("e", "for", "4");
    ReplaceAllMatch("for", "e", "4");
    ReplaceAllSkip("be", "for" + "e", "for", "4");
    assert "before" == "be" + ("for" + "e");
  }

  /** "be" at the front of "be4e" is rewritten. */
  lemma BeforeBeStep()
    ensures ReplaceAll("be4e", "be", "b") == "b4e"
  {
    ReplaceAllNoStart("4e", "be", "b");
    ReplaceAllMatch("be", "4e", "b");
    assert "be4e" == "be" + "4e";
  }

  /** "bee" does not match "b4e". */
  lemma BeforeBeeStep()
    ensures ReplaceAll("b4e", "bee", "b") == "b4e"
  {
    ReplaceAllNoStart("4e", "bee", "b");
    ReplaceAllMismatch("b4e", "bee", "b", 1);
    assert "b4e"[1..] == "4e";
  }

  /** The first nine entries make "be4e" of "before". */
  lemma BeforeUpToSea()
    ensures SubstituteAll("before", Replacements[..9]) == "be4e"
  {
    BeforeForStep();
    UpToSea("before", "be4e");
  }

  /** The first eleven entries make "b4e" of "before". */
  lemma BeforeUpToBee()
    ensures SubstituteAll("before", Replacements[..11]) == "b4e"
  {
    BeforeUpToSea();
    BeforeBeStep();
    BeforeBeeStep();
    UpToBee("before", "be4e", "b4e", "b4e");
  }

  /**
   * "before" is rewritten by "for" to "be4e", then by "be" to "b4e"; the
   * remaining entries find nothing, and three characters are too few for
   * a move.
   */
  lemma SpokenBefore()
    ensures SubstituteAll("before", Replacements) == "b4e"
    ensures Normalize("before") == "b4e"
    ensures ParseVoice("before") == None
  {
    BeforeUpToBee();
    EntriesFromOne("b4e");
    Chain("before", 11, 15, "b4e", "b4e");
    assert Replacements[..15] == Replacements;
    KeepCoordsFixed("b4e");
  }

  // ----- "<file> two <file> four" -----

  /** A file letter. */
  predicate IsFile(c: char) {
    'a' <= c <= 'h'
  }

  /** The text spoken for a move from rank 2 of one file to rank 4 of another. */
  function TwoFour(f: char, g: char): string {
    [f] + " two " + [g] + " four"
  }

  /** `TwoFour(f, g)` cut where the substitutions need it. */
  lemma TwoFourPieces(f: char, g: char)
    ensures TwoFour(f, g) == [f] + (" " + ("t" + ("wo" + (" " + ([g] + (" " + "four"))))))
  {
  }

  /** "for" does not match "four". */
  lemma FourForStep()
    ensures ReplaceAll("four", "for", "4") == "four"
  {
    ReplaceAllNoStart("our", "for", "4");
    ReplaceAllMismatch("four", "for", "4", 2);
    assert "four"[1..] == "our";
  }

  /** "for" finds nothing in the spoken move. */
  lemma TwoFourForStep(f: char, g: char)
    requires IsFile(f) && IsFile(g)
    ensures var x := [f] + (" " + ("t" + ("wo" + (" " + ([g] + (" " + "four"))))));
            ReplaceAll(x, "for", "4") == x
  {
    FourForStep();
    ReplaceAllSkip(" ", "four", "for", "4");
    ReplaceAllCopyFirst(g, " " + "four", "for", "4");
    ReplaceAllSkip(" ", [g] + (" " + "four"), "for", "4");
    ReplaceAllSkip("wo", " " + ([g] + (" " + "four")), "for", "4");
    ReplaceAllSkip("t", "wo" + (" " + ([g] + (" " + "four"))), "for", "4");
    ReplaceAllSkip(" ", "t" + ("wo" + (" " + ([g] + (" " + "four")))), "for", "4");
    ReplaceAllCopyFirst(f, " " + ("t" + ("wo" + (" " + ([g] + (" " + "four"))))), "for", "4");
  }

  /** "four" is rewritten. */
  lemma TwoFourFourStep(f: char, g: char)
    requires IsFile(f) && IsFile(g)
    ensures ReplaceAll([f] + (" " + ("t" + ("wo" + (" " + ([g] + (" " + "four")))))), "four", "4")
         == [f] + (" " + ("t" + ("wo" + (" " + ([g] + (" " + "4"))))))
  {
    ReplaceAllMatch("four", [], "4");
    assert "four" + [] == "four" && "4" + [] == "4";
    ReplaceAllSkip(" ", "four", "four", "4");
    ReplaceAllCopyFirst(g, " " + "four", "four", "4");
    ReplaceAllSkip(" ", [g] + (" " + "four"), "four", "4");
    ReplaceAllSkip("wo", " " + ([g] + (" " + "four")), "four", "4");
    ReplaceAllSkip("t", "wo" + (" " + ([g] + (" " + "four"))), "four", "4");
    ReplaceAllSkip(" ", "t" + ("wo" + (" " + ([g] + (" " + "four")))), "four", "4");
    ReplaceAllCopyFirst(f, " " + ("t" + ("wo" + (" " + ([g] + (" " + "four"))))), "four", "4");
  }

  /** "to" does not match "two". */
  lemma TwoFourToStep(f: char, g: char)
    requires IsFile(f) && IsFile(g)
    ensures var x := [f] + (" " + ("t" + ("wo" + (" " + ([g] + (" " + "4"))))));
            ReplaceAll(x, "to", "2") == x
  {
    ReplaceAllNoStart(" " + "4", "to", "2");
    ReplaceAllCopyFirst(g, " " + "4", "to", "2");
    ReplaceAllSkip(" ", [g] + (" " + "4"), "to", "2");
    ReplaceAllSkip("wo", " " + ([g] + (" " + "4")), "to", "2");
    ReplaceAllCopyFirst('t', "wo" + (" " + ([g] + (" " + "4"))), "to", "2");
    assert ['t'] == "t";
    ReplaceAllSkip(" ", "t" + ("wo" + (" " + ([g] + (" " + "4")))), "to", "2");
    ReplaceAllCopyFirst(f, " " + ("t" + ("wo" + (" " + ([g] + (" " + "4"))))), "to", "2");
  }

  /** "two" is rewritten. */
  lemma TwoFourTwoStep(f: char, g: char)
    requires IsFile(f) && IsFile(g)
    ensures ReplaceAll([f] + (" " + ("t" + ("wo" + (" " + ([g] + (" " + "4")))))), "two", "2")
         == [f] + (" " + ("2" + (" " + ([g] + (" " + "4")))))
  {
    var rest := " " + ([g] + (" " + "4"));
    ReplaceAllNoStart(" " + "4", "two", "2");
    ReplaceAllCopyFirst(g, " " + "4", "two", "2");
    ReplaceAllSkip(" ", [g] + (" " + "4"), "two", "2");
    assert "t" + ("wo" + rest) == "two" + rest;
    ReplaceAllMatch("two", rest, "2");
    ReplaceAllSkip(" ", "two" + rest, "two", "2");
    ReplaceAllCopyFirst(f, " " + ("two" + rest), "two", "2");
  }

  /** The first four entries turn the number words into digits. */
  lemma TwoFourUpToTwo(f: char, g: char)
    requires IsFile(f) && IsFile(g)
    ensures SubstituteAll(TwoFour(f, g), Replacements[..4])
         == [f] + (" " + ("2" + (" " + ([g] + (" " + "4")))))
  {
    var x := [f] + (" " + ("t" + ("wo" + (" " + ([g] + (" " + "four"))))));
    var b := [f] + (" " + ("t" + ("wo" + (" " + ([g] + (" " + "4"))))));
    TwoFourPieces(f, g);
    TwoFourForStep(f, g);
    TwoFourFourStep(f, g);
    TwoFourToStep(f, g);
    TwoFourTwoStep(f, g);
    UpToTwo(x, x, b, b, [f] + (" " + ("2" + (" " + ([g] + (" " + "4"))))));
  }

  /** The digits, files and spaces left after the number words hold no word. */
  lemma TwoFourDigitsNoWord(f: char, g: char)
    requires IsFile(f) && IsFile(g)
    ensures var y := [f] + (" " + ("2" + (" " + ([g] + (" " + "4")))));
            !Occurs("be", y) && 'o' !in y && 't' !in y && 'i' !in y && 's' !in y
  {
    var y := [f] + (" " + ("2" + (" " + ([g] + (" " + "4")))));
    assert y == [f, ' ', '2', ' ', g, ' ', '4'];
    forall i
      ensures !OccursAt("be", y, i)
    {
      if 0 <= i && i + 2 <= |y| {
        assert y[i..i + 2][0] == y[i] && y[i..i + 2][1] == y[i + 1];
      }
    }
  }

  /** The filter drops the spaces between the digits and files. */
  lemma TwoFourDigitsFiltered(f: char, g: char)
    requires IsFile(f) && IsFile(g)
    ensures KeepCoords([f] + (" " + ("2" + (" " + ([g] + (" " + "4")))))) == [f, '2', g, '4']
  {
    KeepCoordsAppend([f], " " + ("2" + (" " + ([g] + (" " + "4")))));
    KeepCoordsAppend(" ", "2" + (" " + ([g] + (" " + "4"))));
    KeepCoordsAppend("2", " " + ([g] + (" " + "4")));
    KeepCoordsAppend(" ", [g] + (" " + "4"));
    KeepCoordsAppend([g], " " + "4");
    KeepCoordsAppend(" ", "4");
  }

  /**
   * "e two e four", and the same with any two files, is read as the move
   * from rank 2 to rank 4: "four" and "two" are rewritten, the other
   * entries find nothing, and the filter drops the spaces.
   */
  lemma SpokenTwoFour(f: char, g: char)
    requires IsFile(f) && IsFile(g)
    ensures Normalize(TwoFour(f, g)) == [f, '2', g, '4']
    ensures ParseVoice(TwoFour(f, g)) == Some(Squares([f, '2'], [g, '4']))
  {
    var y := [f] + (" " + ("2" + (" " + ([g] + (" " + "4")))));
    TwoFourUpToTwo(f, g);
    TwoFourDigitsNoWord(f, g);
    EntriesFromToo(y);
    Chain(TwoFour(f, g), 4, 15, y, y);
    assert Replacements[..15] == Replacements;
    TwoFourDigitsFiltered(f, g);
    assert [f, '2', g, '4'][0..2] == [f, '2'] && [f, '2', g, '4'][2..4] == [g, '4'];
  }

  // ----- coordinate text -----

  /** Typed coordinates pass straight through. */
  lemma TypedE2E4()
    ensures ParseVoice("e2e4") == Some(Squares("e2", "e4"))
  {
    SquaresPassThrough("e2", "e4");
    assert "e2" + "e4" == "e2e4";
  }

  /** "be" inside `[a] + "be" + [d]` is rewritten. */
  lemma BeStep(a: char, d: char)
    requires '1' <= d <= '8'
    ensures ReplaceAll([a] + ("be" + [d]), "be", "b") == [a] + ("b" + [d])
  {
    ReplaceAllNoStart([d], "be", "b");
    ReplaceAllMatch("be", [d], "b");
    ReplaceAllCopyFirst(a, "be" + [d], "be", "b");
  }

  /** What is left of `[a] + "be" + [d]` holds no "be" or "bee". */
  lemma BeGone(a: char, d: char)
    requires IsCoordChar(a) && '1' <= d <= '8'
    ensures var y := [a] + ("b" + [d]);
            !Occurs("bee", y) && 'o' !in y
  {
    var y := [a] + ("b" + [d]);
    assert y == [a, 'b', d];
    forall i
      ensures !OccursAt("be", y, i)
    {
      if 0 <= i && i + 2 <= |y| {
        assert y[i..i + 2][1] == y[i + 1];
      }
    }
    AbsentInside("be", "bee", 0, y);
  }

  /** The first eleven entries turn `[a] + "be" + [d]` into `[a] + "b" + [d]`. */
  lemma CoordinateTextUpToBee(a: char, d: char)
    requires IsCoordChar(a) && '1' <= d <= '8'
    ensures SubstituteAll([a] + ("be" + [d]), Replacements[..11]) == [a] + ("b" + [d])
  {
    var x := [a] + ("be" + [d]);
    var y := [a] + ("b" + [d]);
    assert Replacements[..0] == [];
    assert x == [a, 'b', 'e', d];
    EntriesUpToSea(x, 0);
    BeStep(a, d);
    BeGone(a, d);
    ReplaceAllAbsent(y, "bee", "b");
    UpToBee(x, x, y, y);
  }

  /**
   * Text that is already all coordinates is not always left alone: "be"
   * inside it is still rewritten, so four coordinate characters such as
   * "abe1" lose their `e` and are no longer a move.
   */
  lemma CoordinateTextWithBe(a: char, d: char)
    requires IsCoordChar(a) && '1' <= d <= '8'
    ensures AllCoords([a] + "be" + [d])
    ensures Normalize([a] + "be" + [d]) == [a, 'b', d]
    ensures ParseVoice([a] + "be" + [d]) == None
  {
    var x := [a] + ("be" + [d]);
    var y := [a] + ("b" + [d]);
    assert [a] + "be" + [d] == x == [a, 'b', 'e', d];
    CoordinateTextUpToBee(a, d);
    BeGone(a, d);
    EntriesFromOne(y);
    Chain(x, 11, 15, y, y);
    assert Replacements[..15] == Replacements;
    assert y == [a, 'b', d];
    KeepCoordsFixed(y);
  }

  // ----- a word that survives its own entry -----

  /**
   * The entries "be" and "bee" do not always remove their own word: a
   * replacement that lands just before the rest of the word joins up with
   * it, and the scan has already moved past. "bbee" keeps a "be" after the
   * entry "be" (index 9), and "bbeeee" keeps a "bee" after the entry "bee"
   * (index 10).
   */
  lemma BeSurvivesItsEntry()
    ensures Replacements[9] == Entry("be", "b")
    ensures ReplaceAll("bbee", "be", "b") == "bbe" && OccursAt("be", "bbe", 1)
  {
    assert "bbee" == ['b'] + "bee";
    ReplaceAllCopyFirst('b', "bee", "be", "b");
    assert "bee" == "be" + "e";
    ReplaceAllMatch("be", "e", "b");
    ReplaceAllNoStart("e", "be", "b");
    assert "bbe"[1..3] == "be";
  }

  /** The same for the entry "bee": "bbeeee" becomes "bbee". */
  lemma BeeSurvivesItsEntry()
    ensures Replacements[10] == Entry("bee", "b")
    ensures ReplaceAll("bbeeee", "bee", "b") == "bbee" && OccursAt("bee", "bbee", 1)
  {
    assert "bbeeee" == ['b'] + "beeee";
    ReplaceAllCopyFirst('b', "beeee", "bee", "b");
    assert "beeee" == "bee" + "ee";
    ReplaceAllMatch("bee", "ee", "b");
    ReplaceAllNoStart("ee", "bee", "b");
    assert "bbee"[1..4] == "bee";
  }
}
