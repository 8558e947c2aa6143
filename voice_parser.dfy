/**
 * The voice-move parser of app.js (`parseVoiceMove`): a fixed, ordered
 * table of literal substitutions that repair common speech-to-text
 * mistakes, a filter that keeps only the characters of chess coordinates,
 * and the split of the first four survivors into a source and a target
 * square.
 */
module VoiceParser {
  import opened Strings

  /** A word to look for: never empty, so a scan for it always advances. */
  type Word = s: string | s != [] witness "a"

  /** One substitution: every occurrence of `word` becomes `value`. */
  datatype Entry = Entry(word: Word, value: string)

  /** The substitutions, in the order they are applied. */
  const Replacements: seq<Entry> := [
    Entry("for", "4"), Entry("four", "4"), Entry("to", "2"), Entry("two", "2"),
    Entry("too", "2"), Entry("ate", "8"), Entry("eight", "8"), Entry("see", "c"),
    Entry("sea", "c"), Entry("be", "b"), Entry("bee", "b"), Entry("one", "1"),
    Entry("won", "1"), Entry("doux", "d2"), Entry("before", "b4")
  ]

  /** A file letter `a`-`h` or a rank digit `1`-`8`. */
  predicate IsCoordChar(c: char) {
    ('a' <= c <= 'h') || ('1' <= c <= '8')
  }

  predicate AllCoords(s: string) {
    forall c | c in s :: IsCoordChar(c)
  }

  /** A board square: a file letter followed by a rank digit. */
  predicate IsSquare(s: string) {
    |s| == 2 && 'a' <= s[0] <= 'h' && '1' <= s[1] <= '8'
  }

  /** The character filter: deletes every character outside `[a-h1-8]`. */
  function KeepCoords(s: string): (r: string)
    ensures AllCoords(r)
    ensures |r| <= |s|
  {
    if s == [] then []
    else (if IsCoordChar(s[0]) then [s[0]] else []) + KeepCoords(s[1..])
  }

  /** Applies the substitutions of `table` to `s`, first entry first. */
  function SubstituteAll(s: string, table: seq<Entry>): string
    decreases |table|
  {
    if table == [] then s
    else
      var last := table[|table| - 1];
      ReplaceAll(SubstituteAll(s, table[..|table| - 1]), last.word, last.value)
  }

  /** What is left of a transcript after substitution and filtering. */
  function Normalize(text: string): string {
    KeepCoords(SubstituteAll(text, Replacements))
  }

  /** A candidate move: the first two and the next two coordinate characters. */
  datatype Squares = Squares(from: string, to: string)

  /**
   * The four-character split: at least four characters give a move made of
   * the first four, anything after them ignored; fewer give no move.
   */
  function SplitMove(cleaned: string): (r: Option<Squares>)
    ensures r.Some? <==> |cleaned| >= 4
    ensures r.Some? ==> |r.value.from| == 2 && |r.value.to| == 2
    ensures r.Some? ==> r.value.from + r.value.to == cleaned[..4]
  {
    if |cleaned| >= 4 then Some(Squares(cleaned[0..2], cleaned[2..4])) else None
  }

  /** The move a transcript is read as, if any. */
  function ParseVoice(text: string): Option<Squares> {
    SplitMove(Normalize(text))
  }

  /**
   * The substitution loop and the filter, as the source runs them: the
   * working string is reassigned once per table entry, then filtered.
   */
  method CleanTranscript(text: string) returns (cleaned: string)
    ensures cleaned == Normalize(text)
    ensures AllCoords(cleaned)
  {
    cleaned := text;
    for i := 0 to |Replacements|
      invariant cleaned == SubstituteAll(text, Replacements[..i])
    {
      var e := Replacements[i];
      assert Replacements[..i + 1][..i] == Replacements[..i];
      cleaned := ReplaceAll(cleaned, e.word, e.value);
    }
    assert Replacements[..|Replacements|] == Replacements;
    cleaned := KeepCoords(cleaned);
  }

  // ----- the filter -----

  /** Filtering works piecewise. */
  lemma {:induction false} KeepCoordsAppend(a: string, b: string)
    ensures KeepCoords(a + b) == KeepCoords(a) + KeepCoords(b)
  {
    if a != [] {
      assert (a + b)[1..] == a[1..] + b;
      KeepCoordsAppend(a[1..], b);
    } else {
      assert a + b == b;
    }
  }

  /** On one character the filter keeps a coordinate character and deletes any other. */
  lemma KeepCoordsOne(c: char)
    ensures KeepCoords([c]) == if IsCoordChar(c) then [c] else []
  {
    assert [c][1..] == [];
  }

  /**
   * The filter keeps every coordinate character as often as it occurs and
   * deletes every other character.
   */
  lemma {:induction false} KeepCoordsCounts(s: string)
    ensures forall c :: multiset(KeepCoords(s))[c] == if IsCoordChar(c) then multiset(s)[c] else 0
  {
    if s != [] {
      KeepCoordsCounts(s[1..]);
      assert s == [s[0]] + s[1..];
      assert multiset(s) == multiset([s[0]]) + multiset(s[1..]);
    }
  }

  /** The filter leaves a string alone exactly when it is all coordinates. */
  lemma {:induction false} KeepCoordsFixed(s: string)
    ensures KeepCoords(s) == s <==> AllCoords(s)
  {
    if s != [] {
      KeepCoordsFixed(s[1..]);
      if !IsCoordChar(s[0]) {
        assert s[0] in s;
      } else {
        assert forall c | c in s[1..] :: c in s;
        assert s == [s[0]] + s[1..];
      }
    }
  }

  /** Filtering twice is filtering once. */
  lemma KeepCoordsIdempotent(s: string)
    ensures KeepCoords(KeepCoords(s)) == KeepCoords(s)
  {
    KeepCoordsFixed(KeepCoords(s));
  }

  /** Every replacement value is made of coordinate characters. */
  lemma ReplacementValuesAreCoords()
    ensures forall e | e in Replacements :: e.value != [] && AllCoords(e.value)
  {
  }

  /** Coordinate text survives the filter intact wherever it stands. */
  lemma ReplacementSurvives(x: string, v: string, y: string)
    requires AllCoords(v)
    ensures KeepCoords(x + v + y) == KeepCoords(x) + v + KeepCoords(y)
  {
    KeepCoordsAppend(x + v, y);
    KeepCoordsAppend(x, v);
    KeepCoordsFixed(v);
  }

  // ----- the substitution table -----

  /** Substituting with two tables in turn is substituting with both. */
  lemma {:induction false} SubstituteAllConcat(s: string, a: seq<Entry>, b: seq<Entry>)
    ensures SubstituteAll(s, a + b) == SubstituteAll(SubstituteAll(s, a), b)
    decreases |b|
  {
    if b != [] {
      var n := |b| - 1;
      assert (a + b)[..|a + b| - 1] == a + b[..n];
      assert (a + b)[|a + b| - 1] == b[n];
      SubstituteAllConcat(s, a, b[..n]);
    } else {
      assert a + b == a;
    }
  }

  /** A table none of whose words occurs in `s` leaves `s` unchanged. */
  lemma {:induction false} SubstituteAllAbsent(s: string, table: seq<Entry>)
    requires forall e | e in table :: !Occurs(e.word, s)
    ensures SubstituteAll(s, table) == s
    decreases |table|
  {
    if table != [] {
      var last := table[|table| - 1];
      assert last in table;
      SubstituteAllAbsent(s, table[..|table| - 1]);
      ReplaceAllAbsent(s, last.word, last.value);
    }
  }

  /**
   * Text that is already all coordinates and holds no "be" passes through
   * substitution and filter unchanged: every other word of the table holds
   * a letter outside `a`-`h`, or contains "be".
   */
  lemma CleanTextPassesThrough(s: string)
    requires AllCoords(s) && !Occurs("be", s)
    ensures Normalize(s) == s
  {
    forall e | e in Replacements
      ensures !Occurs(e.word, s)
    {
      if e.word == "be" {
      } else if e.word == "bee" {
        AbsentInside("be", "bee", 0, s);
      } else {
        var c := if 'o' in e.word then 'o' else if 't' in e.word then 't'
                  else if 'i' in e.word then 'i' else 's';
        assert c in e.word && !IsCoordChar(c);
        ForeignCharAbsent(e.word, s, c);
      }
    }
    SubstituteAllAbsent(s, Replacements);
    KeepCoordsFixed(s);
  }

  /** Two squares spoken as coordinates are read back as exactly that move. */
  lemma SquaresPassThrough(from: string, to: string)
    requires IsSquare(from) && IsSquare(to)
    ensures ParseVoice(from + to) == Some(Squares(from, to))
  {
    var s := from + to;
    forall i
      ensures !OccursAt("be", s, i)
    {
      if 0 <= i && i + 2 <= |s| {
        assert s[i..i + 2][0] == s[i] && s[i..i + 2][1] == s[i + 1];
      }
    }
    CleanTextPassesThrough(s);
    assert s[0..2] == from && s[2..4] == to;
  }

  /** Characters after the fourth coordinate character never matter. */
  lemma SplitMoveIgnoresRest(cleaned: string, extra: string)
    requires |cleaned| >= 4
    ensures SplitMove(cleaned + extra) == SplitMove(cleaned)
  {
    assert (cleaned + extra)[..4] == cleaned[..4];
  }

  /**
   * The substitutions from index `n` up to `m` cannot bring back a `word`
   * that is absent after the first `n`, when their values are non-empty and
   * share no character with it.
   */
  lemma {:induction false} SubstituteAllKeepsAbsent(s: string, table: seq<Entry>, n: nat, m: nat, word: string)
    requires n <= m <= |table| && word != []
    requires !Occurs(word, SubstituteAll(s, table[..n]))
    requires forall j | n <= j < m :: table[j].value != [] && forall c | c in table[j].value :: c !in word
    ensures !Occurs(word, SubstituteAll(s, table[..m]))
    decreases m
  {
    if m > n {
      SubstituteAllKeepsAbsent(s, table, n, m - 1, word);
      assert table[..m][..m - 1] == table[..m - 1];
      ReplaceAllKeepsAbsent(SubstituteAll(s, table[..m - 1]), table[m - 1].word, table[m - 1].value, word);
    }
  }

  /** The first `n + 1` substitutions leave no occurrence of word `n`. */
  lemma EntryLeavesNoWord(s: string, n: nat)
    requires n < |Replacements|
    requires forall c | c in Replacements[n].value :: c !in Replacements[n].word
    ensures !Occurs(Replacements[n].word, SubstituteAll(s, Replacements[..n + 1]))
  {
    var e := Replacements[n];
    assert Replacements[..n + 1][..n] == Replacements[..n];
    ReplaceAllKeepsAbsent(SubstituteAll(s, Replacements[..n]), e.word, e.value, e.word);
  }

  /**
   * The entry "too" (index 4) can never fire: it always meets a string
   * whose "to" is already gone.
   */
  lemma TooNeverFires(s: string)
    ensures SubstituteAll(s, Replacements[..5]) == SubstituteAll(s, Replacements[..4])
  {
    EntryLeavesNoWord(s, 2);
    SubstituteAllKeepsAbsent(s, Replacements, 3, 4, "to");
    var t := SubstituteAll(s, Replacements[..4]);
    AbsentInside("to", "too", 0, t);
    assert Replacements[..5][..4] == Replacements[..4];
    ReplaceAllAbsent(t, "too", "2");
  }

  /**
   * The entry "before" (index 14, the last) can never fire: it always meets
   * a string whose "for" is already gone. Spoken "before" becomes "b4e"
   * instead, by way of "for" and then "be".
   */
  lemma BeforeNeverFires(s: string)
    ensures SubstituteAll(s, Replacements) == SubstituteAll(s, Replacements[..14])
  {
    EntryLeavesNoWord(s, 0);
    SubstituteAllKeepsAbsent(s, Replacements, 1, 14, "for");
    var t := SubstituteAll(s, Replacements[..14]);
    AbsentInside("for", "before", 2, t);
    assert Replacements[..14] == Replacements[..|Replacements| - 1];
    ReplaceAllAbsent(t, "before", "b4");
  }
}
