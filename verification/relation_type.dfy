/**
 * `_normalize_relationship_type` (insert_to_neo4j.py): turns a free-text
 * predicate into a Neo4j relationship type — upper case, letters, digits and
 * single underscores only, never starting with a digit or an underscore.
 */
module RelationType {
  import opened Text

  const RelatedTo: string := "RELATED_TO"
  const DigitPrefix: string := "REL_"

  /** A character an output may hold: a kept character after upper-casing. */
  predicate RelChar(c: char)
  {
    (IsAlnum(c) || c == '_') && !('a' <= c <= 'z')
  }

  predicate AllRelChars(s: string)
  {
    forall i :: 0 <= i < |s| ==> RelChar(s[i])
  }

  /** `'__' in s`. */
  predicate HasDouble(s: string)
  {
    exists i :: 0 <= i < |s| - 1 && s[i] == '_' && s[i + 1] == '_'
  }

  /** The shape of every normalised name. */
  predicate WellFormed(s: string)
  {
    s != [] && AllRelChars(s) && !HasDouble(s) && s[0] != '_' && s[|s| - 1] != '_' && !IsDigit(s[0])
  }

  /** `s.replace(' ', '_')`. */
  function SpacesToUnderscores(s: string): (r: string)
    ensures |r| == |s|
    ensures forall i :: 0 <= i < |s| ==> r[i] == (if s[i] == ' ' then '_' else s[i])
  {
    seq(|s|, i requires 0 <= i < |s| => if s[i] == ' ' then '_' else s[i])
  }

  /** Characters other than alphanumerics and `_` become `_`; then everything is upper-cased. */
  function Sanitize(s: string): (r: string)
    ensures |r| == |s| && AllRelChars(r)
    ensures forall i :: 0 <= i < |s| ==> r[i] == (if IsAlnum(s[i]) || s[i] == '_' then UpperChar(s[i]) else '_')
  {
    seq(|s|, i requires 0 <= i < |s| => if IsAlnum(s[i]) || s[i] == '_' then UpperChar(s[i]) else '_')
  }

  /** One left-to-right pass of `s.replace('__', '_')`. */
  function ReplacePairs(s: string): (r: string)
    ensures |r| <= |s|
    ensures HasDouble(s) ==> |r| < |s|
    ensures AllRelChars(s) ==> AllRelChars(r)
  {
    if |s| >= 2 && s[0] == '_' && s[1] == '_' then "_" + ReplacePairs(s[2..])
    else if s == [] then []
    else
      var rest := ReplacePairs(s[1..]);
      assert HasDouble(s) ==> HasDouble(s[1..]) by {
        if HasDouble(s) {
          var i :| 0 <= i < |s| - 1 && s[i] == '_' && s[i + 1] == '_';
          assert i != 0;
          assert s[1..][i - 1] == s[i] && s[1..][i] == s[i + 1];
        }
      }
      [s[0]] + rest
  }

  /** `while '__' in s: s = s.replace('__', '_')`. */
  function Collapse(s: string): (r: string)
    ensures !HasDouble(r)
    ensures AllRelChars(s) ==> AllRelChars(r)
    decreases |s|
  {
    if HasDouble(s) then Collapse(ReplacePairs(s)) else s
  }

  /** `s.strip('_')`. */
  function StripUnderscores(s: string): (r: string)
    ensures |r| <= |s|
    ensures r == [] || (r[0] != '_' && r[|r| - 1] != '_')
    decreases |s|
  {
    if s == [] then []
    else if s[0] == '_' then StripUnderscores(s[1..])
    else if s[|s| - 1] == '_' then StripUnderscores(s[..|s| - 1])
    else s
  }

  /** What `strip('_')` keeps is one contiguous slice of its input. */
  lemma {:induction false} StripUnderscoresSlice(s: string) returns (a: nat, b: nat)
    ensures a <= b <= |s| && StripUnderscores(s) == s[a..b]
    decreases |s|
  {
    if s == [] {
      a, b := 0, 0;
    } else if s[0] == '_' {
      var a', b' := StripUnderscoresSlice(s[1..]);
      assert s[1..][a'..b'] == s[a' + 1..b' + 1];
      a, b := a' + 1, b' + 1;
    } else if s[|s| - 1] == '_' {
      a, b := StripUnderscoresSlice(s[..|s| - 1]);
      assert s[..|s| - 1][a..b] == s[a..b];
    } else {
      a, b := 0, |s|;
      assert s == s[0..|s|];
    }
  }

  lemma SliceKeepsShape(s: string, a: int, b: int)
    requires 0 <= a <= b <= |s| && AllRelChars(s) && !HasDouble(s)
    ensures AllRelChars(s[a..b]) && !HasDouble(s[a..b])
  {
  }

  /** Stripping `_` keeps the allowed characters and the absence of `__`. */
  lemma StripKeepsShape(s: string)
    requires AllRelChars(s) && !HasDouble(s)
    ensures AllRelChars(StripUnderscores(s)) && !HasDouble(StripUnderscores(s))
  {
    var a, b := StripUnderscoresSlice(s);
    SliceKeepsShape(s, a, b);
  }

  predicate AllUnderscores(s: string)
  {
    forall i :: 0 <= i < |s| ==> s[i] == '_'
  }

  /** The text between the blank check and the final checks: sanitised, collapsed and stripped of `_`. */
  function Core(pred: string): (n: string)
    ensures AllRelChars(n) && !HasDouble(n)
    ensures n == [] || (n[0] != '_' && n[|n| - 1] != '_')
  {
    var collapsed := Collapse(Sanitize(SpacesToUnderscores(Strip(pred))));
    StripKeepsShape(collapsed);
    StripUnderscores(collapsed)
  }

  lemma RelatedToWellFormed()
    ensures WellFormed(RelatedTo)
  {
    assert RelatedTo[8] == 'T';
    assert !HasDouble(RelatedTo) by {
      assert forall i :: 0 <= i < |RelatedTo| - 1 ==> !(RelatedTo[i] == '_' && RelatedTo[i + 1] == '_');
    }
  }

  lemma PrefixedWellFormed(n: string)
    requires n != [] && AllRelChars(n) && !HasDouble(n) && n[|n| - 1] != '_' && IsDigit(n[0])
    ensures WellFormed(DigitPrefix + n)
  {
    var r := DigitPrefix + n;
    assert forall i :: 0 <= i < |n| ==> r[i + 4] == n[i];
  }

  /**
   * `_normalize_relationship_type(predicate)`: `RELATED_TO` for a blank
   * predicate or one with nothing but separators; otherwise the sanitised,
   * collapsed, underscore-stripped text, prefixed with `REL_` when it starts
   * with a digit.
   */
  function Normalize(pred: string): (r: string)
    ensures AllSpace(pred) ==> r == RelatedTo
    ensures WellFormed(r)
  {
    StripEmpty(pred);
    RelatedToWellFormed();
    if pred == [] || Strip(pred) == [] then RelatedTo
    else
      var n := Core(pred);
      if n == [] || AllUnderscores(n) then RelatedTo
      else if IsDigit(n[0]) then
        PrefixedWellFormed(n);
        DigitPrefix + n
      else n
  }

  /** A well-formed name is its own normal form. */
  lemma NormalizeWellFormed(s: string)
    requires WellFormed(s)
    ensures Normalize(s) == s
  {
    assert !IsSpace(s[0]) && !IsSpace(s[|s| - 1]);
    StripStripped(s);
    assert SpacesToUnderscores(s) == s;
    assert Sanitize(s) == s;
    assert Collapse(s) == s;
    assert StripUnderscores(s) == s;
    assert Core(s) == s;
  }

  /** Normalising twice is normalising once. */
  lemma NormalizeIdempotent(pred: string)
    ensures Normalize(Normalize(pred)) == Normalize(pred)
  {
    NormalizeWellFormed(Normalize(pred));
  }
}
