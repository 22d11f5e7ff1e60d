/** The strength rule `UserService.ValidatePasswordStrength` enforces on every
    new password, at registration and at a password change. */
module PasswordPolicy {
  import opened Text

  /** `MinPasswordLength`. */
  const MinPasswordLength: int := 8

  /** The ordered checks of `ValidatePasswordStrength`: length first (in UTF-16
      code units, as `string.Length` counts), then one character of each class. */
  function ValidatePasswordStrength(password: string): (ok: bool)
    ensures ok <==> Utf16Length(password) >= MinPasswordLength && HasUpper(password)
                    && HasLower(password) && HasDigit(password) && HasSymbol(password)
  {
    if Utf16Length(password) < MinPasswordLength then false
    else if !HasUpper(password) then false
    else if !HasLower(password) then false
    else if !HasDigit(password) then false
    else if !HasSymbol(password) then false
    else true
  }

  /** A blank password never passes the policy: it has no upper-case letter.
      So the policy alone already rejects everything the blank check rejects. */
  lemma BlankPasswordIsWeak(password: string)
    requires IsBlank(password)
    ensures !ValidatePasswordStrength(password)
  {
  }

  /** A concrete password that passes, so the policy is satisfiable. */
  lemma SomePasswordPasses()
    ensures ValidatePasswordStrength("Passw0rd!")
  {
    var p := "Passw0rd!";
    assert IsUpper(p[0]) && IsLower(p[1]) && IsDigit(p[5]) && !IsLetterOrDigit(p[8]);
  }

  /** Length is counted in UTF-16 code units: seven characters, four of them
      outside the Basic Multilingual Plane, make eleven units and pass; such a
      character also counts as the symbol. */
  lemma AstralPasswordPasses()
    ensures |"Aa1\U{1F600}\U{1F600}\U{1F600}\U{1F600}"| == 7
    ensures ValidatePasswordStrength("Aa1\U{1F600}\U{1F600}\U{1F600}\U{1F600}")
  {
    var p := "Aa1\U{1F600}\U{1F600}\U{1F600}\U{1F600}";
    BmpLength(p[..3]);
    assert Utf16Length(p[..4]) == 5 by { assert p[..4][..3] == p[..3]; }
    assert Utf16Length(p[..5]) == 7 by { assert p[..5][..4] == p[..4]; }
    assert Utf16Length(p[..6]) == 9 by { assert p[..6][..5] == p[..5]; }
    assert Utf16Length(p) == 11 by { assert p[..6] == p[..|p| - 1]; }
    assert IsUpper(p[0]) && IsLower(p[1]) && IsDigit(p[2]) && !IsLetterOrDigit(p[3]);
  }
}
