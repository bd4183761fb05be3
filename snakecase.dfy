/**
 * The naming rule for runtime configuration keys: every key is lower_snake_case,
 * that is, it matches the regular expression `^[a-z]+(_[a-z]+)*$`.
 *
 * `MatchesPattern` says what the expression denotes (one or more runs of
 * lower-case letters joined by single underscores); `IsLowerSnakeCase` is a
 * character-level check of it; `MatcherCorrect` proves that the two agree.
 */
module SnakeCase {

  predicate IsLower(c: char) {
    'a' <= c <= 'z'
  }

  predicate AllLower(w: string) {
    forall i :: 0 <= i < |w| ==> IsLower(w[i])
  }

  /** One `[a-z]+` run. */
  predicate IsWord(w: string) {
    |w| > 0 && AllLower(w)
  }

  /** The words with a single underscore between each two neighbours. */
  function JoinWords(words: seq<string>): string
    requires |words| > 0
  {
    if |words| == 1 then words[0] else words[0] + "_" + JoinWords(words[1..])
  }

  /** The language of `^[a-z]+(_[a-z]+)*$`. */
  ghost predicate MatchesPattern(s: string) {
    exists words: seq<string> ::
      && |words| > 0
      && (forall k :: 0 <= k < |words| ==> IsWord(words[k]))
      && JoinWords(words) == s
  }

  /** Cuts a string at every underscore; the pieces may be empty. */
  function SplitWords(s: string): (words: seq<string>)
    ensures |words| > 0
  {
    if s == [] then [""]
    else if s[0] == '_' then [""] + SplitWords(s[1..])
    else
      var rest := SplitWords(s[1..]);
      [[s[0]] + rest[0]] + rest[1..]
  }

  /**
   * The automaton of the expression: it reads the string once, remembering
   * whether the previous character was a letter. An underscore must follow a
   * letter, and the string must end on a letter.
   */
  function Scan(s: string, afterLetter: bool): bool {
    if s == [] then afterLetter
    else if IsLower(s[0]) then Scan(s[1..], true)
    else s[0] == '_' && afterLetter && Scan(s[1..], false)
  }

  /**
   * The shape of what `Scan(s, afterLetter)` accepts, stated character by
   * character: only letters and underscores, never two underscores in a row,
   * a letter at the end, and an underscore at the start only after a letter.
   */
  predicate ShapeFrom(s: string, afterLetter: bool) {
    && (forall i :: 0 <= i < |s| ==> IsLower(s[i]) || s[i] == '_')
    && (forall i :: 0 <= i < |s| - 1 && s[i] == '_' ==> s[i + 1] != '_')
    && (|s| == 0 ==> afterLetter)
    && (|s| > 0 ==> IsLower(s[|s| - 1]) && (s[0] == '_' ==> afterLetter))
  }

  /** The key check `regexp.MatchString("^[a-z]+(_[a-z]+)*$", key)`. */
  predicate IsLowerSnakeCase(key: string) {
    ShapeFrom(key, false)
  }

  /** The character-by-character shape is exactly what the automaton accepts. */
  lemma {:induction false} ShapeIsScan(s: string, afterLetter: bool)
    ensures ShapeFrom(s, afterLetter) <==> Scan(s, afterLetter)
  {
    if s != [] {
      ShapeIsScan(s[1..], IsLower(s[0]));
      if ShapeFrom(s, afterLetter) {
        assert ShapeFrom(s[1..], IsLower(s[0])) by {
          forall i | 0 <= i < |s[1..]| - 1 && s[1..][i] == '_'
            ensures s[1..][i + 1] != '_'
          {
            assert s[i + 1] == '_';
          }
          if s[0] == '_' {
            assert |s| > 1;
            assert s[1] != '_';
          }
        }
      }
      if Scan(s, afterLetter) {
        var t := s[1..];
        assert ShapeFrom(t, IsLower(s[0]));
        forall i | 0 <= i < |s| - 1 && s[i] == '_'
          ensures s[i + 1] != '_'
        {
          if i > 0 {
            assert t[i - 1] == '_';
          } else {
            assert t != [];
          }
        }
        forall i | 0 <= i < |s|
          ensures IsLower(s[i]) || s[i] == '_'
        {
          if i > 0 {
            assert s[i] == t[i - 1];
          }
        }
      }
    }
  }

  /** Splitting and joining again gives the string back. */
  lemma {:induction false} JoinSplit(s: string)
    ensures JoinWords(SplitWords(s)) == s
  {
    if s == [] {
    } else if s[0] == '_' {
      JoinSplit(s[1..]);
      assert SplitWords(s)[1..] == SplitWords(s[1..]);
    } else {
      var rest := SplitWords(s[1..]);
      JoinSplit(s[1..]);
      var words := SplitWords(s);
      if |rest| == 1 {
        assert words == [[s[0]] + rest[0]];
      } else {
        assert words[1..] == rest[1..];
        assert JoinWords(rest) == rest[0] + "_" + JoinWords(rest[1..]);
        assert JoinWords(words) == [s[0]] + rest[0] + "_" + JoinWords(rest[1..]);
      }
    }
  }

  /** A leading run of letters is consumed without changing the outcome of the scan. */
  lemma {:induction false} ScanSkipsWord(w: string, t: string, afterLetter: bool)
    requires IsWord(w)
    ensures Scan(w + t, afterLetter) == Scan(t, true)
  {
    assert (w + t)[0] == w[0];
    assert (w + t)[1..] == w[1..] + t;
    if |w| > 1 {
      ScanSkipsWord(w[1..], t, true);
    }
  }

  /** Words joined by underscores are accepted by the scan. */
  lemma {:induction false} ScanAcceptsJoin(words: seq<string>, afterLetter: bool)
    requires |words| > 0
    requires forall k :: 0 <= k < |words| ==> IsWord(words[k])
    ensures Scan(JoinWords(words), afterLetter)
  {
    if |words| == 1 {
      ScanSkipsWord(words[0], "", afterLetter);
      assert words[0] + "" == words[0];
    } else {
      var tail := JoinWords(words[1..]);
      ScanSkipsWord(words[0], "_" + tail, afterLetter);
      assert words[0] + ("_" + tail) == words[0] + "_" + tail;
      assert ("_" + tail)[1..] == tail;
      ScanAcceptsJoin(words[1..], false);
    }
  }

  /**
   * What an accepting scan says about the pieces between underscores: the first
   * piece is lower-case letters (non-empty unless the scan began after a letter),
   * and every later piece is a word.
   */
  lemma {:induction false} ScanSplit(s: string, afterLetter: bool)
    requires Scan(s, afterLetter)
    ensures AllLower(SplitWords(s)[0])
    ensures afterLetter || |SplitWords(s)[0]| > 0
    ensures forall k :: 1 <= k < |SplitWords(s)| ==> IsWord(SplitWords(s)[k])
  {
    if s == [] {
    } else if IsLower(s[0]) {
      ScanSplit(s[1..], true);
      var rest := SplitWords(s[1..]);
      assert SplitWords(s) == [[s[0]] + rest[0]] + rest[1..];
    } else {
      ScanSplit(s[1..], false);
      assert SplitWords(s) == [""] + SplitWords(s[1..]);
    }
  }

  /** The matcher accepts exactly the strings the regular expression denotes. */
  lemma MatcherCorrect(s: string)
    ensures IsLowerSnakeCase(s) <==> MatchesPattern(s)
  {
    ShapeIsScan(s, false);
    if IsLowerSnakeCase(s) {
      ScanSplit(s, false);
      JoinSplit(s);
      var words := SplitWords(s);
      assert forall k :: 0 <= k < |words| ==> IsWord(words[k]);
    }
    if MatchesPattern(s) {
      var words: seq<string> :| |words| > 0
        && (forall k :: 0 <= k < |words| ==> IsWord(words[k]))
        && JoinWords(words) == s;
      ScanAcceptsJoin(words, false);
    }
  }
}
