/** The password-history window of `UserManager`: what a run of password changes remembers. */
module PasswordHistory {
  import opened Common

  /** A salted Argon2 hash; verification succeeds only for the password that was hashed. */
  datatype Hash = Hash(password: string, salt: nat)

  predicate Verify(h: Hash, password: string) {
    h.password == password
  }

  datatype Complaint = TooShort | NoUppercase | NoLowercase | NoDigit | NoSpecial | Breached | Reused

  /** A character that is neither an ASCII letter nor an ASCII digit. */
  predicate IsSpecial(c: char) {
    !('A' <= c <= 'Z') && !('a' <= c <= 'z') && !('0' <= c <= '9')
  }

  /** The complexity checks, in order, and the breach list. */
  function Complexity(password: string, breached: bool): Option<Complaint> {
    if |password| < 8 then Some(TooShort)
    else if !(exists c :: c in password && 'A' <= c <= 'Z') then Some(NoUppercase)
    else if !(exists c :: c in password && 'a' <= c <= 'z') then Some(NoLowercase)
    else if !(exists c :: c in password && '0' <= c <= '9') then Some(NoDigit)
    else if !(exists c :: c in password && IsSpecial(c)) then Some(NoSpecial)
    else if breached then Some(Breached)
    else None
  }

  ghost predicate HasBetween(password: string, low: char, high: char) {
    exists i :: 0 <= i < |password| && low <= password[i] <= high
  }

  /** What a password must have, in the order in which it is asked for. */
  ghost predicate Meets(password: string, breached: bool, demand: Complaint) {
    match demand
    case TooShort => |password| >= 8
    case NoUppercase => HasBetween(password, 'A', 'Z')
    case NoLowercase => HasBetween(password, 'a', 'z')
    case NoDigit => HasBetween(password, '0', '9')
    case NoSpecial => exists i :: 0 <= i < |password| && IsSpecial(password[i])
    case Breached => !breached
    case Reused => true
  }

  function Rank(demand: Complaint): nat {
    match demand
    case TooShort => 0
    case NoUppercase => 1
    case NoLowercase => 2
    case NoDigit => 3
    case NoSpecial => 4
    case Breached => 5
    case Reused => 6
  }

  lemma HasBetweenIff(password: string, low: char, high: char)
    ensures HasBetween(password, low, high) <==> exists c :: c in password && low <= c <= high
  {
    if c :| c in password && low <= c <= high {
      var i :| 0 <= i < |password| && password[i] == c;
    }
    if i :| 0 <= i < |password| && low <= password[i] <= high {
      assert password[i] in password;
    }
  }

  lemma HasSpecialIff(password: string)
    ensures Meets(password, false, NoSpecial) <==> exists c :: c in password && IsSpecial(c)
  {
    if c :| c in password && IsSpecial(c) {
      var i :| 0 <= i < |password| && password[i] == c;
    }
    if i :| 0 <= i < |password| && IsSpecial(password[i]) {
      assert password[i] in password;
    }
  }

  ghost predicate MeetsAll(password: string, breached: bool) {
    forall demand :: Meets(password, breached, demand)
  }

  /** Nothing is complained of exactly if all demands are met, and otherwise it is the first one that is not. */
  lemma FirstUnmetDemand(password: string, breached: bool, demand: Complaint)
    ensures Complexity(password, breached) == None <==> MeetsAll(password, breached)
    ensures Complexity(password, breached) == Some(demand) <==>
              && !Meets(password, breached, demand)
              && forall other :: Rank(other) < Rank(demand) ==> Meets(password, breached, other)
  {
    HasBetweenIff(password, 'A', 'Z');
    HasBetweenIff(password, 'a', 'z');
    HasBetweenIff(password, '0', '9');
    HasSpecialIff(password);
    var complaint := Complexity(password, breached);
    assert complaint.Some? ==> !Meets(password, breached, complaint.value);
    forall other | complaint.Some? ==> Rank(other) < Rank(complaint.value)
      ensures Meets(password, breached, other)
    {
    }
  }

  /** `s[-depth:]` for depth > 0 */
  function LastN<T>(s: seq<T>, depth: nat): (tail: seq<T>)
    ensures |tail| == Min(|s|, depth)
  {
    if |s| <= depth then s else s[|s| - depth..]
  }

  /** The stored columns: `hashed_password` and `password_history`. */
  datatype Stored = Stored(hash: Hash, history: seq<Hash>)

  /** The hashes a new password is checked against. */
  function Checked(u: Stored, depth: nat): seq<Hash> {
    if depth == 0 then [] else LastN(u.history + [u.hash], depth)
  }

  function Validate(u: Stored, password: string, breached: bool, depth: nat): Option<Complaint> {
    var complaint := Complexity(password, breached);
    if complaint.Some? then complaint
    else if exists h :: h in Checked(u, depth) && Verify(h, password) then Some(Reused)
    else None
  }

  /** The hook runs once the new hash is stored, so it appends the new hash, not the old. */
  function Pushed(u: Stored, depth: nat): Stored {
    if depth == 0 then u else u.(history := LastN(u.history + [u.hash], depth))
  }

  // ---------------------------------------------------------------------------
  // The object
  // ---------------------------------------------------------------------------

  class UserRow {
    var hash: Hash
    var history: seq<Hash>

    function State(): Stored
      reads this
    {
      Stored(hash, history)
    }

    /** Registration does not push history. */
    constructor (hash: Hash)
      ensures State() == Stored(hash, [])
    {
      this.hash, history := hash, [];
    }

    method ValidatePassword(password: string, breached: bool, depth: nat) returns (complaint: Option<Complaint>)
      ensures complaint == Validate(State(), password, breached, depth)
    {
      complaint := Complexity(password, breached);
      if complaint.Some? {
        return;
      }
      if depth > 0 {
        var checked := LastN(history + [hash], depth);
        for i := 0 to |checked|
          invariant forall j :: 0 <= j < i ==> !Verify(checked[j], password)
        {
          if Verify(checked[i], password) {
            return Some(Reused);
          }
        }
      }
    }

    method PushHistory(depth: nat)
      modifies this`history
      ensures State() == Pushed(old(State()), depth)
    {
      if depth > 0 {
        var appended := history + [hash];
        history := LastN(appended, depth);
      }
    }

    /** A change as the library performs it: validate against the old hash, store the new one, run the hook. */
    method ChangePassword(newHash: Hash, breached: bool, depth: nat) returns (complaint: Option<Complaint>)
      modifies this
      ensures complaint == Validate(old(State()), newHash.password, breached, depth)
      ensures State() == if complaint.Some? then old(State()) else Pushed(Stored(newHash, old(history)), depth)
    {
      complaint := ValidatePassword(newHash.password, breached, depth);
      if complaint.None? {
        hash := newHash;
        PushHistory(depth);
      }
    }
  }

  // ---------------------------------------------------------------------------
  // Runs
  // ---------------------------------------------------------------------------

  /** The row after registering with `first` and then changing to each of `chosen` in turn. */
  function After(first: Hash, chosen: seq<Hash>, depth: nat): Stored {
    if chosen == [] then Stored(first, [])
    else
      var n := |chosen| - 1;
      Pushed(After(first, chosen[..n], depth).(hash := chosen[n]), depth)
  }

  /** Every change was accepted when it was made. */
  ghost predicate Accepted(first: Hash, chosen: seq<Hash>, depth: nat) {
    forall n :: 0 <= n < |chosen| ==>
      Validate(After(first, chosen[..n], depth), chosen[n].password, false, depth).None?
  }

  predicate RejectedAsReused(first: Hash, chosen: seq<Hash>, depth: nat, password: string) {
    exists h :: h in Checked(After(first, chosen, depth), depth) && Verify(h, password)
  }

  /** The password was chosen in one of the last `window` changes. */
  predicate AmongLast(chosen: seq<Hash>, window: nat, password: string) {
    exists h :: h in LastN(chosen, window) && h.password == password
  }

  lemma AmongLastIff(chosen: seq<Hash>, window: nat, password: string)
    ensures AmongLast(chosen, window, password) <==>
              exists k :: 0 <= k < |chosen| && |chosen| - k <= window && chosen[k].password == password
  {
    var recent := LastN(chosen, window);
    var n := |chosen| - |recent|;
    assert recent == chosen[n..];
    assert forall h :: h in recent <==> exists k :: n <= k < |chosen| && chosen[k] == h;
  }

  lemma LastNAppend(s: seq<Hash>, h: Hash, depth: nat)
    requires depth > 0
    ensures LastN(LastN(s, depth) + [h], depth) == LastN(s + [h], depth)
  {
    var kept := LastN(s, depth);
    if |s| >= depth {
      assert (s + [h])[|s| + 1 - depth..] == s[|s| + 1 - depth..] + [h];
      assert (kept + [h])[1..] == kept[1..] + [h];
      assert kept[1..] == s[|s| + 1 - depth..];
    }
  }

  lemma {:induction false} StoredHistory(first: Hash, chosen: seq<Hash>, depth: nat)
    requires depth > 0
    ensures After(first, chosen, depth).history == LastN(chosen, depth)
    ensures After(first, chosen, depth).hash == if chosen == [] then first else chosen[|chosen| - 1]
    decreases |chosen|
  {
    if chosen == [] {
    } else {
      var init, last := chosen[..|chosen| - 1], chosen[|chosen| - 1];
      StoredHistory(first, init, depth);
      LastNAppend(init, last, depth);
      assert init + [last] == chosen;
    }
  }

  /** How many of the last choices are really remembered with depth d: d - 1, but never fewer than one. */
  function Window(depth: nat): nat {
    Max(1, depth - 1)
  }

  /**
   After any run of at least one change, the history check rejects exactly the passwords chosen in the last
   max(1, depth - 1) changes: the stored history already ends in the current hash, which takes up two places.
   */
  lemma ExactWindow(first: Hash, chosen: seq<Hash>, depth: nat, password: string)
    requires depth > 0 && chosen != []
    ensures RejectedAsReused(first, chosen, depth, password) <==> AmongLast(chosen, Window(depth), password)
  {
    StoredHistory(first, chosen, depth);
    var checked := Checked(After(first, chosen, depth), depth);
    var recent := LastN(chosen, Window(depth));
    var last := chosen[|chosen| - 1];
    assert checked == LastN(LastN(chosen, depth) + [last], depth);
    if depth == 1 {
      assert checked == [last] && recent == [last];
    } else {
      assert checked == recent + [last];
      assert last == recent[|recent| - 1];
    }
    assert forall h :: h in checked <==> h in recent;
  }

  /**
   A change is accepted after any run of changes exactly if the password meets every demand and is none of the last
   max(1, depth - 1) chosen; before the first change, if it is not the registration password. With depth zero no history
   is kept.
   */
  lemma AcceptedIff(first: Hash, chosen: seq<Hash>, depth: nat, password: string, breached: bool)
    ensures Validate(After(first, chosen, depth), password, breached, depth) == None <==>
              && MeetsAll(password, breached)
              && (depth == 0
                  || (if chosen == [] then password != first.password
                      else forall k :: 0 <= k < |chosen| && |chosen| - k <= Max(1, depth - 1) ==>
                             chosen[k].password != password))
  {
    FirstUnmetDemand(password, breached, Reused);
    if depth > 0 && chosen == [] {
      var checked := Checked(After(first, chosen, depth), depth);
      assert checked == [first] && first in checked;
    } else if depth > 0 {
      ExactWindow(first, chosen, depth, password);
      AmongLastIff(chosen, Max(1, depth - 1), password);
    }
  }

  /** In an accepted run the last d choices are d different passwords. */
  lemma RecentChoicesDiffer(first: Hash, chosen: seq<Hash>, depth: nat, i: nat, j: nat)
    requires depth > 1 && Accepted(first, chosen, depth)
    requires i < j < |chosen| && j - i < depth
    ensures chosen[i].password != chosen[j].password
  {
    var before := chosen[..j];
    ExactWindow(first, before, depth, chosen[j].password);
    assert Validate(After(first, before, depth), chosen[j].password, false, depth).None?;
    var recent := LastN(before, Window(depth));
    assert recent[i - (|before| - |recent|)] == chosen[i];
  }

  /** What the setting and the error message promise: each of the last d chosen passwords is rejected. */
  ghost predicate RemembersLastDepth(first: Hash, chosen: seq<Hash>, depth: nat) {
    forall password :: AmongLast(chosen, depth, password) ==> RejectedAsReused(first, chosen, depth, password)
  }

  lemma PromiseKept(first: Hash, chosen: seq<Hash>, depth: nat)
    requires depth > 0 && chosen != [] && (depth == 1 || |chosen| < depth)
    ensures RemembersLastDepth(first, chosen, depth)
  {
    assert LastN(chosen, depth) == LastN(chosen, Window(depth));
    forall password | AmongLast(chosen, depth, password)
      ensures RejectedAsReused(first, chosen, depth, password)
    {
      ExactWindow(first, chosen, depth, password);
    }
  }

  /** The depth-th password from the end is outside the window. */
  lemma {:induction false} OldestForgotten(first: Hash, chosen: seq<Hash>, depth: nat)
    requires 1 < depth <= |chosen| && Accepted(first, chosen, depth)
    ensures !AmongLast(chosen, Window(depth), chosen[|chosen| - depth].password)
  {
    var oldest := |chosen| - depth;
    AmongLastIff(chosen, depth - 1, chosen[oldest].password);
    forall k | 0 <= k < |chosen| && |chosen| - k <= depth - 1
      ensures chosen[k].password != chosen[oldest].password
    {
      RecentChoicesDiffer(first, chosen, depth, oldest, k);
    }
  }

  /**
   On runs of accepted changes the promise is kept exactly when the depth is one or fewer than `depth` changes
   have been made; from the depth-th change on, the oldest of the last `depth` passwords can be reused.
   */
  lemma PromiseKeptIff(first: Hash, chosen: seq<Hash>, depth: nat)
    requires depth > 0 && chosen != [] && Accepted(first, chosen, depth)
    ensures RemembersLastDepth(first, chosen, depth) <==> depth == 1 || |chosen| < depth
  {
    if depth == 1 || |chosen| < depth {
      PromiseKept(first, chosen, depth);
    } else {
      var forgotten := chosen[|chosen| - depth];
      assert LastN(chosen, depth)[0] == forgotten;
      assert AmongLast(chosen, depth, forgotten.password);
      ExactWindow(first, chosen, depth, forgotten.password);
      OldestForgotten(first, chosen, depth);
    }
  }

  /** The password of registration is protected until the first change and never after it, unless chosen again. */
  lemma RegistrationPasswordForgotten(first: Hash, chosen: seq<Hash>, depth: nat)
    requires depth > 0
    ensures RejectedAsReused(first, chosen, depth, first.password)
       <==> chosen == [] || AmongLast(chosen, Window(depth), first.password)
  {
    if chosen != [] {
      ExactWindow(first, chosen, depth, first.password);
    } else {
      assert first in Checked(After(first, [], depth), depth);
    }
  }

  /** An accepted run after which one of the last `depth` chosen passwords can be chosen again. */
  ghost predicate BreaksPromise(first: Hash, chosen: seq<Hash>, depth: nat) {
    Accepted(first, chosen, depth) && !RemembersLastDepth(first, chosen, depth)
  }

  /** With depth two, what a change is checked against. */
  lemma CheckedAtTwo(first: Hash, chosen: seq<Hash>)
    requires |chosen| <= 2
    ensures var checked := Checked(After(first, chosen, 2), 2);
            if chosen == [] then checked == [first] else checked == [chosen[|chosen| - 1], chosen[|chosen| - 1]]
  {
    StoredHistory(first, chosen, 2);
  }

  lemma TwoChangesAccepted(first: Hash, second: Hash, third: Hash)
    requires Complexity(second.password, false).None? && Complexity(third.password, false).None?
    requires first.password != second.password && second.password != third.password
    ensures Accepted(first, [second, third], 2)
  {
    var chosen := [second, third];
    assert chosen[..0] == [] && chosen[..1] == [second];
    CheckedAtTwo(first, []);
    CheckedAtTwo(first, [second]);
  }

  /** With depth two, the password before the current one can be chosen again. */
  lemma PreviousReusable(first: Hash, second: Hash, third: Hash)
    requires Complexity(second.password, false).None? && Complexity(third.password, false).None?
    requires first.password != second.password && second.password != third.password
    ensures BreaksPromise(first, [second, third], 2)
    ensures Validate(After(first, [second, third], 2), second.password, false, 2).None?
  {
    TwoChangesAccepted(first, second, third);
    PromiseKeptIff(first, [second, third], 2);
    CheckedAtTwo(first, [second, third]);
  }

  lemma StartsWithEveryKind(password: string)
    requires |password| >= 8
    requires password[0] == 'A' && password[1] == 'a' && password[2] == '1' && password[3] == '!'
    ensures Complexity(password, false).None?
  {
    assert password[0] in password && password[1] in password && password[2] in password && password[3] in password;
  }

  lemma ThreePasswords() returns (a: string, b: string, c: string)
    ensures Complexity(b, false).None? && Complexity(c, false).None? && a != b && b != c
  {
    a, b, c := "Aa1!aaaa", "Aa1!bbbb", "Aa1!cccc";
    StartsWithEveryKind(b);
    StartsWithEveryKind(c);
    assert a[4] != b[4] && b[4] != c[4];
  }

  /** So the promise is broken by a run of two accepted changes. */
  lemma PromiseBroken()
    ensures exists first, chosen :: |chosen| == 2 && BreaksPromise(first, chosen, 2)
  {
    var a, b, c := ThreePasswords();
    PreviousReusable(Hash(a, 0), Hash(b, 0), Hash(c, 0));
    assert |[Hash(b, 0), Hash(c, 0)]| == 2;
  }
}
