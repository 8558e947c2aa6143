/**
 * String primitives used by the voice parser and the engine protocol:
 * a literal global replace (what `s.replace(new RegExp(word, 'g'), v)`
 * does when `word` holds no regular-expression metacharacter), the
 * JavaScript `split(" ")` and `substring(i, j)`, and an optional value.
 */
module Strings {

  datatype Option<T> = None | Some(value: T) {
    function GetOr(default: T): T {
      match this
      case Some(v) => v
      case None => default
    }
  }

  /** `key` occurs in `s` starting at index `i`. */
  ghost predicate OccursAt(key: string, s: string, i: int) {
    0 <= i && i + |key| <= |s| && s[i..i + |key|] == key
  }

  /** `key` occurs somewhere in `s`. */
  ghost predicate Occurs(key: string, s: string) {
    exists i :: OccursAt(key, s, i)
  }

  /**
   * Replaces every occurrence of `key` in `s` by `val`, scanning left to
   * right: a match is replaced and scanning resumes after it, so matches
   * never overlap and inserted text is never scanned again.
   */
  function ReplaceAll(s: string, key: string, val: string): string
    requires key != []
    decreases |s|
  {
    if s == [] then []
    else if key <= s then val + ReplaceAll(s[|key|..], key, val)
    else [s[0]] + ReplaceAll(s[1..], key, val)
  }

  /** A string with no occurrence of `key` is left unchanged. */
  lemma {:induction false} ReplaceAllAbsent(s: string, key: string, val: string)
    requires key != [] && !Occurs(key, s)
    ensures ReplaceAll(s, key, val) == s
    decreases |s|
  {
    if s != [] {
      assert !(key <= s) by {
        assert !OccursAt(key, s, 0);
      }
      forall i
        ensures !OccursAt(key, s[1..], i)
      {
        assert !OccursAt(key, s, i + 1);
        if 0 <= i && i + |key| <= |s| - 1 {
          assert s[i + 1..i + 1 + |key|] == s[1..][i..i + |key|];
        }
      }
      ReplaceAllAbsent(s[1..], key, val);
    }
  }

  /** A stretch holding no first letter of `key` is copied unchanged. */
  lemma {:induction false} ReplaceAllSkip(x: string, y: string, key: string, val: string)
    requires key != [] && key[0] !in x
    ensures ReplaceAll(x + y, key, val) == x + ReplaceAll(y, key, val)
  {
    if x != [] {
      assert (x + y)[0] == x[0] != key[0];
      assert (x + y)[1..] == x[1..] + y;
      ReplaceAllSkip(x[1..], y, key, val);
      assert x == [x[0]] + x[1..];
    } else {
      assert x + y == y;
    }
  }

  /** A string holding no first letter of `key` is left unchanged. */
  lemma ReplaceAllNoStart(x: string, key: string, val: string)
    requires key != [] && key[0] !in x
    ensures ReplaceAll(x, key, val) == x
  {
    ReplaceAllSkip(x, [], key, val);
    assert x + [] == x;
  }

  /** A front that cannot start a match is copied one character. */
  lemma ReplaceAllCopyFirst(c: char, y: string, key: string, val: string)
    requires key != []
    requires c != key[0] || (|key| > 1 && y != [] && y[0] != key[1])
    ensures ReplaceAll([c] + y, key, val) == [c] + ReplaceAll(y, key, val)
  {
    if c == key[0] {
      ReplaceAllMismatch([c] + y, key, val, 1);
    } else {
      ReplaceAllMismatch([c] + y, key, val, 0);
    }
    assert ([c] + y)[1..] == y;
  }

  /** A match at the front is replaced and scanning resumes after it. */
  lemma ReplaceAllMatch(key: string, y: string, val: string)
    requires key != []
    ensures ReplaceAll(key + y, key, val) == val + ReplaceAll(y, key, val)
  {
    assert key <= key + y;
    assert (key + y)[|key|..] == y;
  }

  /**
   * Inserted text is never scanned again: replacing `key` by two copies of
   * itself doubles it once, instead of rewriting the copies forever.
   */
  lemma InsertedNotRescanned(key: string)
    requires key != []
    ensures ReplaceAll(key, key, key + key) == key + key
  {
    ReplaceAllMatch(key, [], key + key);
    assert key + [] == key;
  }

  /** A front that differs from `key` at index `k` is copied one character. */
  lemma ReplaceAllMismatch(s: string, key: string, val: string, k: nat)
    requires key != [] && k < |key| && k < |s| && s[k] != key[k]
    ensures ReplaceAll(s, key, val) == [s[0]] + ReplaceAll(s[1..], key, val)
  {
    assert !(key <= s) by {
      assert |s| < |key| || s[..|key|][k] != key[k];
    }
  }

  /** A key that holds a character absent from `s` cannot occur in `s`. */
  lemma ForeignCharAbsent(key: string, s: string, c: char)
    requires c in key && c !in s
    ensures !Occurs(key, s)
  {
    var j :| 0 <= j < |key| && key[j] == c;
    forall i
      ensures !OccursAt(key, s, i)
    {
      if 0 <= i && i + |key| <= |s| {
        assert s[i + j] in s;
        assert s[i..i + |key|][j] != key[j];
      }
    }
  }

  /**
   * A string without `key` holds no word that contains `key`
   * (at position `at` of `longer`).
   */
  lemma AbsentInside(key: string, longer: string, at: nat, s: string)
    requires at + |key| <= |longer| && longer[at..at + |key|] == key
    requires !Occurs(key, s)
    ensures !Occurs(longer, s)
  {
    forall i
      ensures !OccursAt(longer, s, i)
    {
      if 0 <= i && i + |longer| <= |s| {
        assert !OccursAt(key, s, i + at);
        var k :| 0 <= k < |key| && s[i + at..i + at + |key|][k] != key[k];
        assert longer[at..at + |key|][k] == longer[at + k];
        assert s[i..i + |longer|][at + k] == s[i + at + k];
      }
    }
  }

  /**
   * If the first `j` characters of the output hold no character of `val`,
   * no replacement happened there: they are the input's first `j`.
   */
  lemma {:induction false} ReplaceAllUntouchedPrefix(s: string, key: string, val: string, j: nat)
    requires key != [] && val != []
    requires j <= |ReplaceAll(s, key, val)|
    requires forall p | 0 <= p < j :: ReplaceAll(s, key, val)[p] !in val
    ensures j <= |s| && ReplaceAll(s, key, val)[..j] == s[..j]
    decreases |s|
  {
    if j > 0 {
      var r := ReplaceAll(s, key, val);
      assert !(key <= s) by {
        assert r[0] !in val;
      }
      var r' := ReplaceAll(s[1..], key, val);
      assert r == [s[0]] + r';
      forall p | 0 <= p < j - 1
        ensures r'[p] !in val
      {
        assert r'[p] == r[p + 1];
      }
      ReplaceAllUntouchedPrefix(s[1..], key, val, j - 1);
      assert r[..j] == [s[0]] + r'[..j - 1];
    }
  }

  /**
   * When `s` does not start with `key`, the output starts with `word` only
   * if `s` itself does: a window over the output's start that meets no
   * inserted `val` is the input's own first characters.
   */
  lemma ReplaceAllWordAtStart(s: string, key: string, val: string, word: string)
    requires key != [] && val != [] && word != []
    requires forall c | c in val :: c !in word
    requires s != [] && !(key <= s)
    requires word == key || !OccursAt(word, s, 0)
    ensures !OccursAt(word, ReplaceAll(s, key, val), 0)
  {
    var r := ReplaceAll(s, key, val);
    var tail := ReplaceAll(s[1..], key, val);
    assert r == [s[0]] + tail;
    var k := |word| - 1;
    if |word| <= |r| {
      if exists p :: 0 <= p < k && tail[p] in val {
        // a character of `val` inside the window cannot belong to `word`
        var p :| 0 <= p < k && tail[p] in val;
        assert r[..|word|][p + 1] == tail[p] && word[p + 1] in word;
      } else {
        ReplaceAllUntouchedPrefix(s[1..], key, val, k);
        assert s[..|word|] == [s[0]] + s[1..][..k];
        assert r[..|word|] == [s[0]] + tail[..k];
      }
    }
  }

  /** Dropping a prefix cannot create an occurrence. */
  lemma DropAbsent(word: string, s: string, d: nat)
    requires d <= |s| && !Occurs(word, s)
    ensures !Occurs(word, s[d..])
  {
    forall i
      ensures !OccursAt(word, s[d..], i)
    {
      assert !OccursAt(word, s, i + d);
      if 0 <= i && i + |word| <= |s| - d {
        assert s[d..][i..i + |word|] == s[i + d..i + d + |word|];
      }
    }
  }

  /**
   * `head + tail` holds no `word` when `tail` holds none and no window
   * starting inside `head` matches.
   */
  lemma ConcatAbsent(word: string, head: string, tail: string)
    requires !Occurs(word, tail)
    requires forall i | 0 <= i < |head| :: !OccursAt(word, head + tail, i)
    ensures !Occurs(word, head + tail)
  {
    var r := head + tail;
    forall i | |head| <= i && i + |word| <= |r|
      ensures !OccursAt(word, r, i)
    {
      assert !OccursAt(word, tail, i - |head|);
      assert tail[i - |head|..i - |head| + |word|] == r[i..i + |word|];
    }
  }

  /** No window starting inside an inserted `val` can match `word`. */
  lemma InsertedAbsent(word: string, val: string, tail: string)
    requires word != [] && forall c | c in val :: c !in word
    ensures forall i | 0 <= i < |val| :: !OccursAt(word, val + tail, i)
  {
    forall i | 0 <= i < |val| && i + |word| <= |val + tail|
      ensures !OccursAt(word, val + tail, i)
    {
      assert (val + tail)[i..i + |word|][0] == val[i] && word[0] in word;
    }
  }

  /**
   * After replacing `key` by text sharing no character with `word`, the
   * output holds no `word` if the input held none, and never holds `key`
   * itself: every window of the output either touches an inserted `val`
   * or lies in an untouched stretch of the input.
   */
  lemma {:induction false} ReplaceAllKeepsAbsent(s: string, key: string, val: string, word: string)
    requires key != [] && val != [] && word != []
    requires forall c | c in val :: c !in word
    requires word == key || !Occurs(word, s)
    ensures !Occurs(word, ReplaceAll(s, key, val))
    decreases |s|
  {
    if s != [] {
      var d := if key <= s then |key| else 1;
      if word != key {
        DropAbsent(word, s, d);
      }
      ReplaceAllKeepsAbsent(s[d..], key, val, word);
      var tail := ReplaceAll(s[d..], key, val);
      if key <= s {
        InsertedAbsent(word, val, tail);
        ConcatAbsent(word, val, tail);
      } else {
        ReplaceAllWordAtStart(s, key, val, word);
        ConcatAbsent(word, [s[0]], tail);
      }
    }
  }

  /**
   * JavaScript's `s.split(" ")`: the fields between single spaces, empty
   * fields included, so a string with `n` spaces has `n + 1` fields.
   */
  function Split(s: string): (parts: seq<string>)
    ensures |parts| >= 1
    ensures forall p | p in parts :: ' ' !in p
  {
    if s == [] then [""]
    else
      var rest := Split(s[1..]);
      if s[0] == ' ' then [""] + rest
      else [[s[0]] + rest[0]] + rest[1..]
  }

  /** There is a second field exactly when there is a space. */
  lemma {:induction false} SplitSeveral(s: string)
    ensures |Split(s)| >= 2 <==> ' ' in s
  {
    if s != [] {
      SplitSeveral(s[1..]);
      assert s == [s[0]] + s[1..];
    }
  }

  /** The inverse of `Split`: the fields glued back with single spaces. */
  function Join(parts: seq<string>): string
    requires |parts| >= 1
  {
    if |parts| == 1 then parts[0] else parts[0] + " " + Join(parts[1..])
  }

  /** Splitting loses nothing: joining the fields gives back the string. */
  lemma {:induction false} JoinSplit(s: string)
    ensures Join(Split(s)) == s
  {
    if s != [] {
      JoinSplit(s[1..]);
      var rest := Split(s[1..]);
      if s[0] != ' ' && |rest| > 1 {
        assert Join(rest) == rest[0] + " " + Join(rest[1..]);
      }
    }
  }

  /** A leading stretch without spaces becomes the start of the first field. */
  lemma {:induction false} SplitPrefix(a: string, b: string)
    requires ' ' !in a
    ensures Split(a + b) == [a + Split(b)[0]] + Split(b)[1..]
  {
    if a != [] {
      assert (a + b)[0] == a[0] != ' ';
      assert (a + b)[1..] == a[1..] + b;
      SplitPrefix(a[1..], b);
      var rest := Split(a[1..] + b);
      assert Split(a + b) == [[a[0]] + rest[0]] + rest[1..];
      assert [a[0]] + (a[1..] + Split(b)[0]) == a + Split(b)[0];
    } else {
      assert a + b == b;
      assert a + Split(b)[0] == Split(b)[0];
      assert [a + Split(b)[0]] + Split(b)[1..] == Split(b);
    }
  }

  /** A field followed by a space splits off as a whole. */
  lemma SplitField(a: string, b: string)
    requires ' ' !in a
    ensures Split(a + " " + b) == [a] + Split(b)
  {
    assert a + " " + b == a + (" " + b);
    SplitPrefix(a, " " + b);
    assert (" " + b)[0] == ' ';
    assert (" " + b)[1..] == b;
    assert Split(" " + b) == [""] + Split(b);
    assert a + "" == a;
  }

  /** Fields without spaces survive a join followed by a split. */
  lemma {:induction false} SplitJoin(parts: seq<string>)
    requires |parts| >= 1
    requires forall p | p in parts :: ' ' !in p
    ensures Split(Join(parts)) == parts
  {
    if |parts| == 1 {
      SplitPrefix(parts[0], []);
      assert parts[0] + [] == parts[0];
    } else {
      SplitJoin(parts[1..]);
      SplitField(parts[0], Join(parts[1..]));
      assert parts == [parts[0]] + parts[1..];
    }
  }

  /**
   * JavaScript's `s.substring(start, end)` for `start <= end`: both bounds
   * are clamped to the length, so a short string yields a short (or empty)
   * result instead of an error.
   */
  function Substring(s: string, start: nat, end: nat): (r: string)
    requires start <= end
    ensures |r| == if |s| <= start then 0 else (if |s| < end then |s| else end) - start
    ensures forall k | 0 <= k < |r| :: r[k] == s[start + k]
  {
    if |s| <= start then [] else if |s| < end then s[start..] else s[start..end]
  }
}
