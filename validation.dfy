/**
 * The identifier check of `Widget.on_submit`: `re.compile(r'^[A-Za-z0-9\-\.]+$').search(text)`.
 * Without MULTILINE, `^` anchors at the start only, and `$` matches at the end of
 * the text or just before a newline that ends it.
 */
module Validation {

  /** The character class `[A-Za-z0-9\-\.]`. */
  predicate IdentChar(c: char) {
    ('A' <= c <= 'Z') || ('a' <= c <= 'z') || ('0' <= c <= '9') || c == '-' || c == '.'
  }

  predicate AllIdentChars(s: string) {
    forall i :: 0 <= i < |s| ==> IdentChar(s[i])
  }

  /** How far the greedy `[...]+` runs from the start of the text. */
  function LeadingRun(s: string): (k: nat)
    ensures k <= |s|
    ensures forall i :: 0 <= i < k ==> IdentChar(s[i])
    ensures k < |s| ==> !IdentChar(s[k])
    decreases |s|
  {
    if |s| > 0 && IdentChar(s[0]) then 1 + LeadingRun(s[1..]) else 0
  }

  /**
   * The regex search as the engine runs it: one or more class characters from
   * the start, then `$`. Backing off the greedy run cannot help, since `$` never
   * matches before a class character.
   */
  predicate PatternSearch(s: string)
    ensures PatternSearch(s) ==> |s| > 0 && IdentChar(s[0])
  {
    var k := LeadingRun(s);
    k >= 1 && (k == |s| || (k == |s| - 1 && s[k] == '\n'))
  }

  /**
   * The accepted texts are exactly the non-empty strings over the class, and
   * those strings followed by one newline.
   */
  lemma PatternAccepts(s: string)
    ensures PatternSearch(s) <==>
      (|s| > 0 && AllIdentChars(s)) || (|s| > 1 && s[|s| - 1] == '\n' && AllIdentChars(s[..|s| - 1]))
  {
    var k := LeadingRun(s);
    if |s| > 1 && s[|s| - 1] == '\n' && AllIdentChars(s[..|s| - 1]) {
      assert forall i :: 0 <= i < |s| - 1 ==> s[..|s| - 1][i] == s[i];
    }
  }

  /** The empty text and any text holding `/` or a space are refused. */
  lemma RejectsEmptySlashSpace(s: string)
    requires s == [] || '/' in s || ' ' in s
    ensures !PatternSearch(s)
  {
    PatternAccepts(s);
    if s != [] {
      var i :| 0 <= i < |s| && (s[i] == '/' || s[i] == ' ');
      assert i < |s| - 1 ==> s[..|s| - 1][i] == s[i];
    }
  }

  /** Sample identifiers: accepted, accepted with one final newline, and refused. */
  lemma Examples()
    ensures PatternSearch("abc-123.x")
    ensures PatternSearch("abc-123.x\n")
    ensures !PatternSearch("") && !PatternSearch("a/b") && !PatternSearch("a b")
  {
    PatternAccepts("abc-123.x");
    PatternAccepts("abc-123.x\n");
    assert "abc-123.x\n"[..9] == "abc-123.x";
    RejectsEmptySlashSpace("");
    RejectsEmptySlashSpace("a/b");
    RejectsEmptySlashSpace("a b");
  }
}
