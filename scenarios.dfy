/**
  Concrete runs of the entry loop: the map-order and flag behaviour of the
  sequential substitution, and a field initialiser rewritten end to end.
 */
module Scenarios {
  import opened Tokens

  // --- "app-${NAME}-${VER}" under [("${VER}", "1.2.3"), ("${NAME}", "demo")]

  lemma VerInTail()
    ensures ReplaceNonEmpty("{NAME}-${VER}", "${VER}", "1.2.3") == "{NAME}-1.2.3"
  {
    assert StartsWith("${VER}", "${VER}");
    assert ReplaceNonEmpty("", "${VER}", "1.2.3") == "";
    ReplaceNonEmptySkips("{NAME}-", "${VER}", "${VER}", "1.2.3");
    assert "{NAME}-" + "${VER}" == "{NAME}-${VER}";
  }

  lemma VerAfterName()
    ensures ReplaceNonEmpty("${NAME}-${VER}", "${VER}", "1.2.3") == "${NAME}-1.2.3"
  {
    VerInTail();
    var s := "${NAME}-${VER}";
    assert s[..6][2] == 'N' != "${VER}"[2];
    assert !StartsWith(s, "${VER}");
    assert s[1..] == "{NAME}-${VER}";
  }

  lemma VerAfterPrefix()
    ensures ReplaceNonEmpty("app-" + "${NAME}-${VER}", "${VER}", "1.2.3") == "app-" + "${NAME}-1.2.3"
  {
    VerAfterName();
    ReplaceNonEmptySkips("app-", "${NAME}-${VER}", "${VER}", "1.2.3");
  }

  lemma VerReplaced()
    ensures Replace("app-${NAME}-${VER}", "${VER}", "1.2.3") == "app-${NAME}-1.2.3"
  {
    VerAfterPrefix();
    assert "app-" + "${NAME}-${VER}" == "app-${NAME}-${VER}";
    assert "app-" + "${NAME}-1.2.3" == "app-${NAME}-1.2.3";
  }

  lemma NameReplaced()
    ensures Replace("app-${NAME}-1.2.3", "${NAME}", "demo") == "app-demo-1.2.3"
  {
    ReplaceNonEmptySkips("-1.2.3", "", "${NAME}", "demo");
    assert "-1.2.3" + "" == "-1.2.3";
    assert ReplaceNonEmpty("", "${NAME}", "demo") == "";
    var t := "${NAME}-1.2.3";
    assert StartsWith(t, "${NAME}");
    assert t[7..] == "-1.2.3";
    ReplaceNonEmptySkips("app-", t, "${NAME}", "demo");
    assert "app-" + t == "app-${NAME}-1.2.3";
    assert "app-" + ("demo" + "-1.2.3") == "app-demo-1.2.3";
  }

  /** Both tokens of a field initialiser are replaced, and the site raises the flag. */
  lemma VersionAndNameScenario()
    ensures Substitute("app-${NAME}-${VER}", [("${VER}", "1.2.3"), ("${NAME}", "demo")]) == "app-demo-1.2.3"
    ensures Changed("app-${NAME}-${VER}", [("${VER}", "1.2.3"), ("${NAME}", "demo")])
  {
    var tokens := [("${VER}", "1.2.3"), ("${NAME}", "demo")];
    VerReplaced();
    NameReplaced();
    assert tokens[1..] == [("${NAME}", "demo")];
    assert tokens[1..][1..] == [];
    NetChangeRaisesFlag("app-${NAME}-${VER}", tokens);
  }

  // --- overlapping keys: a later entry rewrites what an earlier one produced

  lemma AToB()
    ensures Replace("${A}", "${A}", "${B}") == "${B}"
  {
    assert StartsWith("${A}", "${A}");
    assert ReplaceNonEmpty("", "${A}", "${B}") == "";
  }

  lemma BToX()
    ensures Replace("${B}", "${B}", "X") == "X"
  {
    assert StartsWith("${B}", "${B}");
    assert ReplaceNonEmpty("", "${B}", "X") == "";
  }

  lemma BAbsentFromA()
    ensures Replace("${A}", "${B}", "X") == "${A}"
  {
    assert "${A}"[..4][2] == 'A' != "${B}"[2];
    assert !StartsWith("${A}", "${B}");
    assert "${A}"[1..] == "{A}";
    ReplaceNonEmptySkips("{A}", "", "${B}", "X");
    assert "{A}" + "" == "{A}";
    assert ReplaceNonEmpty("", "${B}", "X") == "";
  }

  /** Entries apply in map order: ${A} -> ${B} -> X, while the other order stops at ${B}. */
  lemma MapOrderMatters()
    ensures Substitute("${A}", [("${A}", "${B}"), ("${B}", "X")]) == "X"
    ensures Substitute("${A}", [("${B}", "X"), ("${A}", "${B}")]) == "${B}"
  {
    AToB();
    BToX();
    BAbsentFromA();
    var t1 := [("${A}", "${B}"), ("${B}", "X")];
    assert t1[1..] == [("${B}", "X")] && t1[1..][1..] == [];
    var t2 := [("${B}", "X"), ("${A}", "${B}")];
    assert t2[1..] == [("${A}", "${B}")] && t2[1..][1..] == [];
  }

  lemma BToA()
    ensures Replace("${B}", "${B}", "${A}") == "${A}"
  {
    assert StartsWith("${B}", "${B}");
    assert ReplaceNonEmpty("", "${B}", "${A}") == "";
  }

  /**
    The flag is raised although the site ends as it started: the first entry changes
    ${A} into ${B}, the second changes it back.
   */
  lemma FlagWithoutNetChange()
    ensures Substitute("${A}", [("${A}", "${B}"), ("${B}", "${A}")]) == "${A}"
    ensures Changed("${A}", [("${A}", "${B}"), ("${B}", "${A}")])
  {
    AToB();
    BToA();
    var t := [("${A}", "${B}"), ("${B}", "${A}")];
    assert t[1..] == [("${B}", "${A}")] && t[1..][1..] == [];
    assert t[..1] == [("${A}", "${B}")] && t[..1][1..] == [];
    assert Substitute("${A}", t[..1]) == "${B}";
  }

  // --- re-running the same map is not idempotent in general

  /**
    No value contains a key, yet a second run changes the text again: replacing
    "ab" by "b" in "aab" creates a new "ab".
   */
  lemma RerunNotIdempotent()
    ensures Substitute("aab", [("ab", "b")]) == "ab"
    ensures Substitute("ab", [("ab", "b")]) == "b"
    ensures !Occurs("b", "ab")
  {
    var t := [("ab", "b")];
    assert t[1..] == [];
    assert ReplaceNonEmpty("", "ab", "b") == "";
    assert StartsWith("ab", "ab");
    assert Replace("ab", "ab", "b") == "b";
    assert "aab"[..2][1] == 'a' != "ab"[1];
    assert !StartsWith("aab", "ab");
    assert "aab"[1..] == "ab";
  }
}
