/**
  Token substitution on one string: literal substring replacement with the
  semantics of java.lang.String.replace(CharSequence, CharSequence), and its
  sequential application over the entries of an ordered token map.
 */
module Tokens {

  /** The token map in iteration order: (key, already stringified value). */
  type TokenMap = seq<(string, string)>

  predicate StartsWith(s: string, prefix: string) {
    |prefix| <= |s| && s[..|prefix|] == prefix
  }

  predicate EndsWith(s: string, suffix: string) {
    |suffix| <= |s| && s[|s| - |suffix|..] == suffix
  }

  /** key is a literal, contiguous substring of s (the empty key is one of every string). */
  predicate Occurs(s: string, key: string) {
    exists i | 0 <= i <= |s| :: StartsWith(s[i..], key)
  }

  /** What replace does with an empty key: val before every character and once more at the end. */
  function InsertEverywhere(s: string, val: string): string
  {
    if s == [] then val else val + [s[0]] + InsertEverywhere(s[1..], val)
  }

  /** Left-to-right scan replacing each non-overlapping occurrence of a non-empty key. */
  function ReplaceNonEmpty(s: string, key: string, val: string): string
    requires key != []
    decreases |s|
  {
    if |s| < |key| then s
    else if StartsWith(s, key) then val + ReplaceNonEmpty(s[|key|..], key, val)
    else [s[0]] + ReplaceNonEmpty(s[1..], key, val)
  }

  /** s.replace(key, val). */
  function Replace(s: string, key: string, val: string): string
  {
    if key == [] then InsertEverywhere(s, val) else ReplaceNonEmpty(s, key, val)
  }

  /** The value a site holds after the entry loop: a left fold of Replace over the entries. */
  function Substitute(s: string, tokens: TokenMap): string
    decreases |tokens|
  {
    if tokens == [] then s
    else Substitute(Replace(s, tokens[0].0, tokens[0].1), tokens[1..])
  }

  /** The change flag of one site: some intermediate value of the entry loop differs from the original. */
  predicate Changed(s: string, tokens: TokenMap) {
    exists j | 1 <= j <= |tokens| :: Substitute(s, tokens[..j]) != s
  }

  /** Applying entry to s yields a different string. */
  predicate Rewrites(s: string, entry: (string, string)) {
    Occurs(s, entry.0) && entry.0 != entry.1
  }

  /** Some entry of the map rewrites s itself. */
  predicate HitsToken(s: string, tokens: TokenMap) {
    exists j | 0 <= j < |tokens| :: Rewrites(s, tokens[j])
  }

  // ---------------------------------------------------------------------------
  // Replace

  lemma OccursUnfold(s: string, key: string)
    requires s != []
    ensures Occurs(s, key) <==> StartsWith(s, key) || Occurs(s[1..], key)
  {
    if Occurs(s, key) {
      var i :| 0 <= i <= |s| && StartsWith(s[i..], key);
      if i == 0 {
        assert s[i..] == s;
      } else {
        assert s[i..] == s[1..][i - 1..];
      }
    }
    if StartsWith(s, key) {
      assert s[0..] == s;
    }
    if Occurs(s[1..], key) {
      var i :| 0 <= i <= |s[1..]| && StartsWith(s[1..][i..], key);
      assert s[1..][i..] == s[i + 1..];
    }
  }

  lemma {:induction false} InsertEverywhereShape(s: string, val: string)
    ensures |InsertEverywhere(s, val)| == |s| + (|s| + 1) * |val|
    ensures val == [] ==> InsertEverywhere(s, val) == s
  {
    if s != [] {
      InsertEverywhereShape(s[1..], val);
      if val == [] {
        assert [] + [s[0]] + s[1..] == s;
      }
    }
  }

  lemma {:induction false} ReplaceNonEmptyAbsent(s: string, key: string, val: string)
    requires key != [] && !Occurs(s, key)
    ensures ReplaceNonEmpty(s, key, val) == s
    decreases |s|
  {
    if |key| <= |s| {
      OccursUnfold(s, key);
      ReplaceNonEmptyAbsent(s[1..], key, val);
      assert [s[0]] + s[1..] == s;
    }
  }

  lemma {:induction false} ReplaceNonEmptySame(s: string, key: string)
    requires key != []
    ensures ReplaceNonEmpty(s, key, key) == s
    decreases |s|
  {
    if |key| <= |s| {
      if StartsWith(s, key) {
        ReplaceNonEmptySame(s[|key|..], key);
        assert key + s[|key|..] == s;
      } else {
        ReplaceNonEmptySame(s[1..], key);
        assert [s[0]] + s[1..] == s;
      }
    }
  }

  /** Replacing never shrinks a string when the value is at least as long as the key, and vice versa. */
  lemma {:induction false} ReplaceNonEmptyLength(s: string, key: string, val: string)
    requires key != []
    ensures |val| >= |key| ==> |ReplaceNonEmpty(s, key, val)| >= |s|
    ensures |val| <= |key| ==> |ReplaceNonEmpty(s, key, val)| <= |s|
    decreases |s|
  {
    if |key| <= |s| {
      if StartsWith(s, key) {
        ReplaceNonEmptyLength(s[|key|..], key, val);
      } else {
        ReplaceNonEmptyLength(s[1..], key, val);
      }
    }
  }

  lemma {:induction false} ReplaceNonEmptyChanges(s: string, key: string, val: string)
    requires key != [] && Occurs(s, key) && key != val
    ensures ReplaceNonEmpty(s, key, val) != s
    decreases |s|
  {
    var i :| 0 <= i <= |s| && StartsWith(s[i..], key);
    OccursUnfold(s, key);
    var r := ReplaceNonEmpty(s, key, val);
    if StartsWith(s, key) {
      var rest := s[|key|..];
      assert r == val + ReplaceNonEmpty(rest, key, val);
      ReplaceNonEmptyLength(rest, key, val);
      if |val| == |key| {
        assert r[..|key|] == val;
        assert s[..|key|] == key;
      }
    } else {
      ReplaceNonEmptyChanges(s[1..], key, val);
      assert r == [s[0]] + ReplaceNonEmpty(s[1..], key, val);
      assert r[1..] == ReplaceNonEmpty(s[1..], key, val);
    }
  }

  /** A prefix that does not contain the key's first character is copied as it is. */
  lemma {:induction false} ReplaceNonEmptySkips(p: string, q: string, key: string, val: string)
    requires key != [] && key[0] !in p
    ensures ReplaceNonEmpty(p + q, key, val) == p + ReplaceNonEmpty(q, key, val)
    decreases |p|
  {
    if p == [] {
      assert p + q == q;
    } else {
      var s := p + q;
      assert s[0] == p[0];
      assert s[1..] == p[1..] + q;
      ReplaceNonEmptySkips(p[1..], q, key, val);
      assert p == [p[0]] + p[1..];
    }
  }

  /** A replace leaves s as it is exactly when the key does not occur in s or the value equals the key. */
  lemma ReplaceUnchangedIff(s: string, key: string, val: string)
    ensures Replace(s, key, val) == s <==> !Occurs(s, key) || key == val
  {
    if key == [] {
      assert StartsWith(s[0..], key);
      InsertEverywhereShape(s, val);
    } else if !Occurs(s, key) {
      ReplaceNonEmptyAbsent(s, key, val);
    } else if key == val {
      ReplaceNonEmptySame(s, key);
    } else {
      ReplaceNonEmptyChanges(s, key, val);
    }
  }

  /** A key that is not a substring of s leaves s unchanged, whatever the value. */
  lemma ReplaceAbsentKey(s: string, key: string, val: string)
    requires !Occurs(s, key)
    ensures Replace(s, key, val) == s
  {
    ReplaceUnchangedIff(s, key, val);
  }

  /** The empty key is not rejected: its value is inserted at all |s| + 1 positions. */
  lemma ReplaceEmptyKey(s: string, val: string)
    ensures |Replace(s, [], val)| == |s| + (|s| + 1) * |val|
    ensures Replace(s, [], val) == s <==> val == []
  {
    InsertEverywhereShape(s, val);
    ReplaceUnchangedIff(s, [], val);
  }

  // ---------------------------------------------------------------------------
  // The entry loop

  /** One more entry applies Replace to the result of the entries before it. */
  lemma {:induction false} SubstituteSnoc(s: string, tokens: TokenMap, entry: (string, string))
    ensures Substitute(s, tokens + [entry]) == Replace(Substitute(s, tokens), entry.0, entry.1)
    decreases |tokens|
  {
    if tokens == [] {
      assert tokens + [entry] == [entry];
      assert [entry][1..] == [];
    } else {
      assert (tokens + [entry])[1..] == tokens[1..] + [entry];
      SubstituteSnoc(Replace(s, tokens[0].0, tokens[0].1), tokens[1..], entry);
    }
  }

  /** Entries of a common prefix that do not rewrite s keep every intermediate value equal to s. */
  lemma {:induction false} PrefixFixed(s: string, tokens: TokenMap, n: nat)
    requires n <= |tokens|
    requires forall j | 0 <= j < n :: !Rewrites(s, tokens[j])
    ensures Substitute(s, tokens[..n]) == s
  {
    if n == 0 {
      assert tokens[..n] == [];
    } else {
      PrefixFixed(s, tokens, n - 1);
      assert tokens[..n] == tokens[..n - 1] + [tokens[n - 1]];
      SubstituteSnoc(s, tokens[..n - 1], tokens[n - 1]);
      ReplaceUnchangedIff(s, tokens[n - 1].0, tokens[n - 1].1);
    }
  }

  /**
    The flag of a site is raised exactly when some entry's key occurs in the ORIGINAL
    string with a value different from the key: intermediate values do not matter.
   */
  lemma ChangedIffHitsToken(s: string, tokens: TokenMap)
    ensures Changed(s, tokens) <==> HitsToken(s, tokens)
  {
    if HitsToken(s, tokens) {
      var j :| 0 <= j < |tokens| && Rewrites(s, tokens[j]);
      assert tokens[..0] == [];
      if Substitute(s, tokens[..j]) == s {
        assert tokens[..j + 1] == tokens[..j] + [tokens[j]];
        SubstituteSnoc(s, tokens[..j], tokens[j]);
        ReplaceUnchangedIff(s, tokens[j].0, tokens[j].1);
        assert Substitute(s, tokens[..j + 1]) != s;
      }
    } else {
      forall j | 1 <= j <= |tokens|
        ensures Substitute(s, tokens[..j]) == s
      {
        PrefixFixed(s, tokens, j);
      }
    }
  }

  /** A site whose final value differs from its original always raises the flag. */
  lemma NetChangeRaisesFlag(s: string, tokens: TokenMap)
    ensures Substitute(s, tokens) != s ==> Changed(s, tokens)
  {
    assert tokens[..|tokens|] == tokens;
  }

  /** If no entry rewrites s, the entry loop leaves s as it is and raises no flag. */
  lemma NoTokenNoChange(s: string, tokens: TokenMap)
    requires !HitsToken(s, tokens)
    ensures Substitute(s, tokens) == s && !Changed(s, tokens)
  {
    assert tokens[..|tokens|] == tokens;
    PrefixFixed(s, tokens, |tokens|);
    ChangedIffHitsToken(s, tokens);
  }

  /** Re-running the map on its own output is a no-op when no entry rewrites that output. */
  lemma RerunFixedPoint(s: string, tokens: TokenMap)
    requires !HitsToken(Substitute(s, tokens), tokens)
    ensures Substitute(Substitute(s, tokens), tokens) == Substitute(s, tokens)
    ensures !Changed(Substitute(s, tokens), tokens)
  {
    NoTokenNoChange(Substitute(s, tokens), tokens);
  }
}
