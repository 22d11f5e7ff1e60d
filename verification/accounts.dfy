/** The records the credential store keeps: `User` and `LoginAttemptInfo`,
    and the normalisation `LoadLoginAttempts` applies when it turns the stored
    list of attempt records into the in-memory dictionary. */
module Accounts {
  import opened Wrappers
  import opened Text
  import opened PasswordHashing

  /** An account. Instants are UTC ticks. The financial collections a `User`
      object also carries are not used by the credential store. */
  datatype User = User(
    id: nat, username: string, passwordHash: PasswordHash, createdAt: int,
    lastLogin: int, isLocked: bool, lockedUntil: Option<int>)

  /** The per-username failure counter. */
  datatype LoginAttemptInfo = LoginAttemptInfo(
    username: string, failedAttempts: int, lastAttemptTime: int, lockoutEnd: Option<int>)

  /** The record is stored under `key`: it has a username, and that username
      lower-cases to `key`. */
  predicate Keyed(a: LoginAttemptInfo, key: string) {
    |a.username| > 0 && Fold(a.username) == key
  }

  /** The position of the last record keyed by `key`. */
  function LastIndexFor(list: seq<LoginAttemptInfo>, key: string): (r: Option<nat>)
    ensures r.None? <==> forall j :: 0 <= j < |list| ==> !Keyed(list[j], key)
    ensures r.Some? ==> r.value < |list| && Keyed(list[r.value], key)
                        && forall j :: r.value < j < |list| ==> !Keyed(list[j], key)
    decreases |list|
  {
    if |list| == 0 then None
    else if Keyed(list[|list| - 1], key) then Some(|list| - 1)
    else
      var prefix := list[..|list| - 1];
      assert forall j :: 0 <= j < |prefix| ==> prefix[j] == list[j];
      LastIndexFor(prefix, key)
  }

  /** Reference reading of the stored list: the last record keyed by `key`,
      which is the one the dictionary keeps. */
  function LastRecordFor(list: seq<LoginAttemptInfo>, key: string): (r: Option<LoginAttemptInfo>)
    ensures r.None? <==> forall j :: 0 <= j < |list| ==> !Keyed(list[j], key)
    ensures r.Some? ==> exists i :: 0 <= i < |list| && list[i] == r.value && Keyed(list[i], key)
                                    && forall j :: i < j < |list| ==> !Keyed(list[j], key)
  {
    match LastIndexFor(list, key)
    case None => None
    case Some(i) => Some(list[i])
  }

  /** The dictionary-building loop of `LoadLoginAttempts`: every record with a
      non-empty username is stored under its lower-cased name, later records
      overwriting earlier ones. */
  method IndexAttempts(list: seq<LoginAttemptInfo>) returns (m: map<string, LoginAttemptInfo>)
    ensures forall key :: key in m <==> LastRecordFor(list, key).Some?
    ensures forall key :: key in m ==> m[key] == LastRecordFor(list, key).value
    ensures forall key :: key in m ==> Fold(key) == key
  {
    m := map[];
    var i := 0;
    while i < |list|
      invariant 0 <= i <= |list|
      invariant forall key :: key in m <==> LastRecordFor(list[..i], key).Some?
      invariant forall key :: key in m ==> m[key] == LastRecordFor(list[..i], key).value
    {
      var a := list[i];
      assert list[..i + 1][..i] == list[..i];
      if |a.username| > 0 {
        m := m[Fold(a.username) := a];
      }
      i := i + 1;
    }
    assert list[..i] == list;
    forall key | key in m
      ensures Fold(key) == key
    {
      FoldIdempotent(LastRecordFor(list, key).value.username);
    }
  }
}
