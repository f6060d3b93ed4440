/**
 * The front end's offline stand-in for the detector: a verdict read off
 * the file name, case-insensitively, with a random fallback when the name
 * says nothing. The random number is an input here.
 */
module Simulation {

  /** The part of the simulated analysis that does not depend on timing or confidence draws. */
  datatype Analysis = Analysis(status: string, details: string)

  const Anomalies: string := "Anomalies detected in high-frequency spectrum."
  const NoArtifacts: string := "No manipulation artifacts found."

  /** Lower-casing of one character, for the ASCII letters. */
  function Lower(c: char): (d: char)
    ensures !('A' <= d <= 'Z')
    ensures 'A' <= c <= 'Z' ==> d as int == c as int + 32
    ensures !('A' <= c <= 'Z') ==> d == c
  {
    if 'A' <= c <= 'Z' then (c as int + 32) as char else c
  }

  /** toLowerCase: every upper-case letter replaced by its lower-case form, nothing else changed. */
  function LowerCase(s: string): (t: string)
    ensures |t| == |s|
    ensures forall i :: 0 <= i < |t| ==> !('A' <= t[i] <= 'Z')
    ensures forall i :: 0 <= i < |t| ==> t[i] == s[i] || ('A' <= s[i] <= 'Z' && t[i] as int == s[i] as int + 32)
  {
    seq(|s|, i requires 0 <= i < |s| => Lower(s[i]))
  }

  /** Lower-casing twice is lower-casing once. */
  lemma LowerCaseIdempotent(s: string)
    ensures LowerCase(LowerCase(s)) == LowerCase(s)
  {
    var t := LowerCase(s);
    assert forall i :: 0 <= i < |t| ==> LowerCase(t)[i] == t[i];
  }

  /** `t` occurs in `s` starting at position i. */
  predicate OccursAt(s: string, t: string, i: int) {
    0 <= i && i + |t| <= |s| && s[i..i + |t|] == t
  }

  /** String.prototype.includes: `t` occurs in `s` at some position. */
  predicate Includes(s: string, t: string)
    ensures Includes(s, t) ==> |t| <= |s|
  {
    exists i | 0 <= i <= |s| :: OccursAt(s, t, i)
  }

  /** Every string includes the empty string. */
  lemma IncludesEmpty(s: string)
    ensures Includes(s, "")
  {
    assert OccursAt(s, "", 0);
  }

  /** A string includes every infix of it: `t` is found in `p + t + r`. */
  lemma IncludesInfix(p: string, t: string, r: string)
    ensures Includes(p + t + r, t)
  {
    var s := p + t + r;
    assert s[|p|..|p| + |t|] == t;
    assert OccursAt(s, t, |p|);
  }

  /** The status rule: 'fake' (or 'deepfake') wins, then 'real' or 'normal', then the draw. */
  function Status(lower: string, draw: real): (s: string)
    ensures s == "FAKE" || s == "NORMAL"
    ensures Includes(lower, "fake") ==> s == "FAKE"
  {
    if Includes(lower, "fake") || Includes(lower, "deepfake") then "FAKE"
    else if Includes(lower, "real") || Includes(lower, "normal") then "NORMAL"
    else if draw > 0.3 then "NORMAL"
    else "FAKE"
  }

  /**
   * simulateAnalysis, for a file name and the value drawn by the fallback.
   * The status is always FAKE or NORMAL; a name containing 'fake' in any
   * case is FAKE, also when it contains 'real' or 'normal' too; otherwise
   * a name with 'real' or 'normal' is NORMAL; only a name with none of them
   * depends on the draw, and is NORMAL exactly when the draw exceeds 0.3.
   * The details are the anomalies message exactly for FAKE.
   */
  function Simulate(name: string, draw: real): (a: Analysis)
    ensures a.status == "FAKE" || a.status == "NORMAL"
    ensures Includes(LowerCase(name), "fake") ==> a.status == "FAKE"
    ensures (!Includes(LowerCase(name), "fake") &&
             (Includes(LowerCase(name), "real") || Includes(LowerCase(name), "normal"))) ==> a.status == "NORMAL"
    ensures (!Includes(LowerCase(name), "fake") && !Includes(LowerCase(name), "real") &&
             !Includes(LowerCase(name), "normal")) ==> (a.status == "NORMAL" <==> draw > 0.3)
    ensures a.details == Anomalies <==> a.status == "FAKE"
    ensures a.details == NoArtifacts <==> a.status == "NORMAL"
  {
    var lower := LowerCase(name);
    DeepfakeContainsFake(lower);
    var status := Status(lower, draw);
    Analysis(status, if status == "FAKE" then Anomalies else NoArtifacts)
  }

  /** Every name containing 'deepfake' also contains 'fake', so the second test adds nothing. */
  lemma DeepfakeContainsFake(s: string)
    ensures Includes(s, "deepfake") ==> Includes(s, "fake")
  {
    if Includes(s, "deepfake") {
      var i :| 0 <= i <= |s| && OccursAt(s, "deepfake", i);
      assert |"deepfake"| == 8 && i + 8 <= |s|;
      assert s[i + 4..i + 8] == s[i..i + 8][4..];
      assert OccursAt(s, "fake", i + 4);
    }
  }

  /** Lower-casing preserves occurrences. */
  lemma IncludesLowerCase(s: string, t: string)
    requires Includes(s, t)
    ensures Includes(LowerCase(s), LowerCase(t))
  {
    var i :| 0 <= i <= |s| && OccursAt(s, t, i);
    assert i + |t| <= |s|;
    assert LowerCase(s)[i..i + |t|] == LowerCase(t);
    assert OccursAt(LowerCase(s), LowerCase(t), i);
  }

  /** The verdict depends on the name only through its lower-case form. */
  lemma SimulateIgnoresCase(name: string, draw: real)
    ensures Simulate(name, draw) == Simulate(LowerCase(name), draw)
  {
    LowerCaseIdempotent(name);
  }

  /** A name containing 'FAKE' in capitals is FAKE. */
  lemma UpperCaseFakeIsFake(name: string, draw: real)
    requires Includes(name, "FAKE")
    ensures Simulate(name, draw).status == "FAKE"
  {
    IncludesLowerCase(name, "FAKE");
    assert LowerCase("FAKE") == "fake";
  }

  /** Once the name matches a keyword the random draw has no effect. */
  lemma KeywordIgnoresDraw(name: string, d1: real, d2: real)
    requires Includes(LowerCase(name), "fake") || Includes(LowerCase(name), "real") ||
             Includes(LowerCase(name), "normal")
    ensures Simulate(name, d1) == Simulate(name, d2)
  {}
}
