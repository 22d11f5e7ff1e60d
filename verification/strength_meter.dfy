/** The live strength meter of the change-password dialog
    (`ChangePasswordForm.CalculatePasswordStrength` and the label thresholds of
    `NewPasswordBox_TextChanged`), and how it relates to the store's policy. */
module StrengthMeter {
  import opened Text
  import opened PasswordPolicy

  datatype StrengthLabel = Weak | Moderate | Strong

  /** Points for a length of `n` UTF-16 code units: 25 from 12, 15 from 8,
      10 from 6, else none. */
  function LengthPoints(n: nat): (pts: int)
    ensures pts in {0, 10, 15, 25}
    ensures pts == 0 <==> n < 6
    ensures pts == 10 <==> 6 <= n < 8
    ensures pts == 15 <==> 8 <= n < 12
    ensures pts == 25 <==> n >= 12
  {
    if n >= 12 then 25 else if n >= 8 then 15 else if n >= 6 then 10 else 0
  }

  /** Points for character variety: 15 per upper, lower and digit class present, 20 for a symbol. */
  function ClassPoints(p: string): (pts: int)
    ensures 0 <= pts <= 65
    ensures |p| == 0 ==> pts == 0
  {
    (if HasUpper(p) then 15 else 0) + (if HasLower(p) then 15 else 0)
    + (if HasDigit(p) then 15 else 0) + (if HasSymbol(p) then 20 else 0)
  }

  /** Typing one more character adds the points of its class exactly when that
      class was not present yet; with `ClassPoints("") == 0` this determines the
      variety points of every password. */
  lemma ClassPointsAppend(p: string, c: char)
    ensures IsUpper(c) ==> ClassPoints(p + [c]) == ClassPoints(p) + (if HasUpper(p) then 0 else 15)
    ensures IsLower(c) ==> ClassPoints(p + [c]) == ClassPoints(p) + (if HasLower(p) then 0 else 15)
    ensures IsDigit(c) ==> ClassPoints(p + [c]) == ClassPoints(p) + (if HasDigit(p) then 0 else 15)
    ensures !IsLetterOrDigit(c) ==> ClassPoints(p + [c]) == ClassPoints(p) + (if HasSymbol(p) then 0 else 20)
  {
    var q := p + [c];
    assert q[|p|] == c;
    assert HasUpper(q) <==> HasUpper(p) || IsUpper(c) by {
      if HasUpper(q) && !IsUpper(c) {
        var i :| 0 <= i < |q| && IsUpper(q[i]);
        assert i < |p| && p[i] == q[i];
      }
      if HasUpper(p) {
        var i :| 0 <= i < |p| && IsUpper(p[i]);
        assert q[i] == p[i];
      }
    }
    assert HasLower(q) <==> HasLower(p) || IsLower(c) by {
      if HasLower(q) && !IsLower(c) {
        var i :| 0 <= i < |q| && IsLower(q[i]);
        assert i < |p| && p[i] == q[i];
      }
      if HasLower(p) {
        var i :| 0 <= i < |p| && IsLower(p[i]);
        assert q[i] == p[i];
      }
    }
    assert HasDigit(q) <==> HasDigit(p) || IsDigit(c) by {
      if HasDigit(q) && !IsDigit(c) {
        var i :| 0 <= i < |q| && IsDigit(q[i]);
        assert i < |p| && p[i] == q[i];
      }
      if HasDigit(p) {
        var i :| 0 <= i < |p| && IsDigit(p[i]);
        assert q[i] == p[i];
      }
    }
    assert HasSymbol(q) <==> HasSymbol(p) || !IsLetterOrDigit(c) by {
      if HasSymbol(q) && IsLetterOrDigit(c) {
        var i :| 0 <= i < |q| && !IsLetterOrDigit(q[i]);
        assert i < |p| && p[i] == q[i];
      }
      if HasSymbol(p) {
        var i :| 0 <= i < |p| && !IsLetterOrDigit(p[i]);
        assert q[i] == p[i];
      }
    }
  }

  /** All four character classes occur. */
  predicate AllClasses(p: string) {
    HasUpper(p) && HasLower(p) && HasDigit(p) && HasSymbol(p)
  }

  /** The +10 bonus for at least 8 UTF-16 code units with all four classes. */
  function VarietyBonus(p: string): (pts: int)
    ensures pts == 10 <==> Utf16Length(p) >= 8 && AllClasses(p)
    ensures pts == 0 || pts == 10
  {
    if Utf16Length(p) >= 8 && AllClasses(p) then 10 else 0
  }

  /** `CalculatePasswordStrength`: 0 for the empty password, otherwise the sum of
      the three parts capped at 100. */
  function CalculatePasswordStrength(p: string): (score: int)
    ensures 0 <= score <= 100
    ensures |p| == 0 ==> score == 0
  {
    if |p| == 0 then 0
    else
      var raw := LengthPoints(Utf16Length(p)) + ClassPoints(p) + VarietyBonus(p);
      if raw < 100 then raw else 100
  }

  /** The label shown under the bar: Weak below 40, Moderate below 75, else Strong. */
  function LabelFor(score: int): (l: StrengthLabel)
    ensures l == Weak <==> score < 40
    ensures l == Moderate <==> 40 <= score < 75
    ensures l == Strong <==> score >= 75
  {
    if score < 40 then Weak else if score < 75 then Moderate else Strong
  }

  /** The cap at 100 never bites: the parts add up to at most 100, so the score
      of a non-empty password is exactly their sum. */
  lemma ScoreIsSumOfParts(p: string)
    requires |p| > 0
    ensures CalculatePasswordStrength(p) == LengthPoints(Utf16Length(p)) + ClassPoints(p) + VarietyBonus(p)
  {
  }

  /** Every password the store's policy accepts scores at least 90 and shows Strong. */
  lemma PolicyPassingIsStrong(p: string)
    requires ValidatePasswordStrength(p)
    ensures CalculatePasswordStrength(p) >= 90
    ensures LabelFor(CalculatePasswordStrength(p)) == Strong
  {
  }

  /** Exactly which passwords the meter calls Strong: all four classes with at
      least 6 UTF-16 code units, or at least 12 with a symbol and two of the
      other three classes. */
  lemma StrongExactly(p: string)
    ensures LabelFor(CalculatePasswordStrength(p)) == Strong <==>
      (AllClasses(p) && Utf16Length(p) >= 6)
      || (Utf16Length(p) >= 12 && HasSymbol(p)
          && ((HasUpper(p) && HasLower(p)) || (HasUpper(p) && HasDigit(p)) || (HasLower(p) && HasDigit(p))))
  {
  }

  /** The meter is more lenient about length than the policy: a 6- or
      7-character password with all classes shows Strong yet fails the policy. */
  lemma StrongButRejected()
    ensures LabelFor(CalculatePasswordStrength("Ab1!xy")) == Strong
    ensures !ValidatePasswordStrength("Ab1!xy")
  {
    var p := "Ab1!xy";
    BmpLength(p);
    assert IsUpper(p[0]) && IsLower(p[1]) && IsDigit(p[2]) && !IsLetterOrDigit(p[3]);
  }
}
