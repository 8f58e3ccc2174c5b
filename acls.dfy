/** Sample access-control lists: the permission enums, the order-preserving
    de-duplication of user lists, the cross-tier checks and the three validated
    ACL records (ownerless ACL, ACL with an owner, ACL delta). */
module Acls {
  import opened Wrappers

  // ---------------------------------------------------------------------------
  // Permission enums
  // ---------------------------------------------------------------------------

  /** The levels of access a user can have to a sample (an integer enum). */
  datatype SampleAccessType = NONE | READ | WRITE | ADMIN | OWNER {
    /** The integer the enum member stands for. */
    function Value(): int {
      match this
      case NONE => 1
      case READ => 2
      case WRITE => 3
      case ADMIN => 4
      case OWNER => 5
    }
  }

  /** The members of SampleAccessType in declaration order, which is the
      order of their values. */
  function SampleAccessTypes(): (r: seq<SampleAccessType>)
    ensures |r| == 5 && forall t: SampleAccessType :: r[t.Value() - 1] == t
    ensures forall i, j :: 0 <= i < j < |r| ==> r[i].Value() < r[j].Value()
  {
    [SampleAccessType.NONE, SampleAccessType.READ, SampleAccessType.WRITE,
     SampleAccessType.ADMIN, SampleAccessType.OWNER]
  }

  /** Looks up the SampleAccessType member with integer value v. */
  function SampleAccessTypeOf(v: int): (r: Option<SampleAccessType>)
    ensures r.Some? <==> 1 <= v <= 5
    ensures r.Some? ==> r.value.Value() == v
  {
    if v == 1 then Some(SampleAccessType.NONE)
    else if v == 2 then Some(SampleAccessType.READ)
    else if v == 3 then Some(SampleAccessType.WRITE)
    else if v == 4 then Some(SampleAccessType.ADMIN)
    else if v == 5 then Some(SampleAccessType.OWNER)
    else None
  }

  /** Every SampleAccessType member is found again from its value. */
  lemma SampleAccessTypeRoundTrip(t: SampleAccessType)
    ensures SampleAccessTypeOf(t.Value()) == Some(t)
  {
  }

  /** The levels of service-wide administration permission (an integer enum). */
  datatype AdminPermission = NONE | READ | FULL {
    /** The integer the enum member stands for. */
    function Value(): int {
      match this
      case NONE => 1
      case READ => 2
      case FULL => 3
    }
  }

  /** The members of AdminPermission in declaration order, which is the order
      of their values. */
  function AdminPermissions(): (r: seq<AdminPermission>)
    ensures |r| == 3 && forall p: AdminPermission :: r[p.Value() - 1] == p
    ensures forall i, j :: 0 <= i < j < |r| ==> r[i].Value() < r[j].Value()
  {
    [AdminPermission.NONE, AdminPermission.READ, AdminPermission.FULL]
  }

  /** Looks up the AdminPermission member with integer value v. */
  function AdminPermissionOf(v: int): (r: Option<AdminPermission>)
    ensures r.Some? <==> 1 <= v <= 3
    ensures r.Some? ==> r.value.Value() == v
  {
    if v == 1 then Some(AdminPermission.NONE)
    else if v == 2 then Some(AdminPermission.READ)
    else if v == 3 then Some(AdminPermission.FULL)
    else None
  }

  /** Every AdminPermission member is found again from its value. */
  lemma AdminPermissionRoundTrip(p: AdminPermission)
    ensures AdminPermissionOf(p.Value()) == Some(p)
  {
  }

  // ---------------------------------------------------------------------------
  // Users, timestamps and errors
  // ---------------------------------------------------------------------------

  /** A user name. The empty name stands for any value that evaluates to false
      (such as None) where a user is expected. */
  type UserID = string

  predicate IsFalsy(u: UserID) {
    |u| == 0
  }

  /** A point in time; `hasTimezone` tells an aware datetime from a naive one.
      Aware datetimes compare by the instant they denote. */
  datatype Timestamp = Timestamp(instant: int, hasTimezone: bool)

  /** The argument an error is about. */
  datatype Field = Owner | LastUpdate | Admin | Write | Read | Remove

  /** The invariant violations reported as IllegalParameterError. */
  datatype Violation =
    | UserInTwoAcls(user: UserID)
    | OwnerInAcl
    | RemovedUserGranted

  datatype Error =
    | FalsyValue(field: Field)       // a required value, or an element of a user list, is falsy
    | NaiveTimestamp(field: Field)     // a timestamp without time zone
    | IllegalParameter(violation: Violation)

  /** The timestamp check applied to `lastupdate`: the value is required and
      must carry time zone information. */
  function CheckTimestamp(t: Option<Timestamp>, field: Field): (r: Result<Timestamp, Error>)
    ensures r.Ok? <==> t.Some? && t.value.hasTimezone
    ensures r.Ok? ==> r.value == t.value
    ensures t.None? ==> r == Err(FalsyValue(field))
    ensures t.Some? && !t.value.hasTimezone ==> r == Err(NaiveTimestamp(field))
  {
    match t
    case None => Err(FalsyValue(field))
    case Some(ts) => if ts.hasTimezone then Ok(ts) else Err(NaiveTimestamp(field))
  }

  // ---------------------------------------------------------------------------
  // User lists
  // ---------------------------------------------------------------------------

  predicate NoDuplicates(s: seq<UserID>) {
    forall i, j :: 0 <= i < j < |s| ==> s[i] != s[j]
  }

  predicate AllPresent(s: seq<UserID>) {
    forall i :: 0 <= i < |s| ==> !IsFalsy(s[i])
  }

  predicate SameElements(a: seq<UserID>, b: seq<UserID>) {
    (forall x :: x in a ==> x in b) && (forall x :: x in b ==> x in a)
  }

  /** No user of a occurs in b. */
  predicate Disjoint(a: seq<UserID>, b: seq<UserID>) {
    forall x :: x in a ==> x !in b
  }

  /** A missing user list is an empty one. */
  function OrEmpty(s: Option<seq<UserID>>): seq<UserID> {
    s.GetOr([])
  }

  /** The position of the first occurrence of x in s. */
  function FirstIndex(s: seq<UserID>, x: UserID): (i: nat)
    requires x in s
    ensures i < |s| && s[i] == x
    ensures forall k :: 0 <= k < i ==> s[k] != x
  {
    if s[0] == x then 0 else 1 + FirstIndex(s[1..], x)
  }

  /** t lists the users of s with no repeats, each drawn from s, in the order
      of each user's first occurrence in s. */
  predicate InFirstOccurrenceOrder(t: seq<UserID>, s: seq<UserID>) {
    && (forall x :: x in t ==> x in s)
    && forall i, j :: 0 <= i < j < |t| ==> FirstIndex(s, t[i]) < FirstIndex(s, t[j])
  }

  /** t is the listing of the distinct users of s by first occurrence. */
  predicate IsFirstOccurrenceListing(t: seq<UserID>, s: seq<UserID>) {
    && NoDuplicates(t)
    && SameElements(t, s)
    && InFirstOccurrenceOrder(t, s)
  }

  /** Order-preserving de-duplication: the users of s are inserted one by one
      into an insertion-ordered dictionary, so a repeat of a user already seen
      is dropped. */
  function Dedup(s: seq<UserID>): (r: seq<UserID>)
    ensures NoDuplicates(r)
    ensures SameElements(r, s)
    ensures |r| <= |s|
  {
    if |s| == 0 then []
    else
      var d := Dedup(s[..|s| - 1]);
      assert s == s[..|s| - 1] + [s[|s| - 1]];
      if s[|s| - 1] in d then d else d + [s[|s| - 1]]
  }

  /** The first occurrence of a user of a prefix of s is the same in s. */
  lemma FirstIndexInPrefix(s: seq<UserID>, n: nat, x: UserID)
    requires n <= |s| && x in s[..n]
    ensures x in s && FirstIndex(s, x) == FirstIndex(s[..n], x)
  {
    var i, j := FirstIndex(s, x), FirstIndex(s[..n], x);
    assert s[j] == x;
    assert i <= j;
    assert s[..n][i] == x;
  }

  /** Dedup keeps the users in the order in which each first occurs. */
  lemma {:induction false} DedupKeepsFirstOccurrenceOrder(s: seq<UserID>)
    ensures InFirstOccurrenceOrder(Dedup(s), s)
    decreases |s|
  {
    if |s| > 0 {
      var n := |s| - 1;
      var p := s[..n];
      var d := Dedup(p);
      var r := Dedup(s);
      DedupKeepsFirstOccurrenceOrder(p);
      forall x | x in d
        ensures x in s && FirstIndex(s, x) == FirstIndex(p, x)
      {
        FirstIndexInPrefix(s, n, x);
      }
      if s[n] !in d {
        assert s[n] !in p;
        assert FirstIndex(s, s[n]) == n;
        assert r == d + [s[n]];
        forall i, j | 0 <= i < j < |r|
          ensures FirstIndex(s, r[i]) < FirstIndex(s, r[j])
        {
          if j == |d| {
            assert r[i] == d[i];
          } else {
            assert r[i] == d[i] && r[j] == d[j];
          }
        }
      }
    }
  }

  /** Dropping the first user of an ordered list keeps it ordered, and that
      user does not occur again. */
  lemma OrderedTail(t: seq<UserID>, s: seq<UserID>)
    requires InFirstOccurrenceOrder(t, s) && |t| > 0
    ensures InFirstOccurrenceOrder(t[1..], s)
    ensures t[0] !in t[1..]
  {
    var u := t[1..];
    forall i, j | 0 <= i < j < |u|
      ensures FirstIndex(s, u[i]) < FirstIndex(s, u[j])
    {
      assert u[i] == t[i + 1] && u[j] == t[j + 1];
    }
    forall i | 0 <= i < |u| ensures u[i] != t[0] {
      assert FirstIndex(s, t[0]) < FirstIndex(s, t[i + 1]);
    }
  }

  /** Two non-empty ordered lists with the same users start with the same user. */
  lemma OrderedHeadsEqual(t1: seq<UserID>, t2: seq<UserID>, s: seq<UserID>)
    requires InFirstOccurrenceOrder(t1, s) && InFirstOccurrenceOrder(t2, s)
    requires SameElements(t1, t2) && |t1| > 0 && |t2| > 0
    ensures t1[0] == t2[0]
  {
    assert t1[0] in t2;
    var k :| 0 <= k < |t2| && t2[k] == t1[0];
    assert t2[0] in t1;
    var m :| 0 <= m < |t1| && t1[m] == t2[0];
    assert FirstIndex(s, t1[0]) <= FirstIndex(s, t1[m]);
    assert FirstIndex(s, t2[0]) <= FirstIndex(s, t2[k]);
  }

  /** Of two lists drawn from s with the same users, each ordered by first
      occurrence in s, neither can differ from the other. */
  lemma {:induction false} OrderedListingsEqual(t1: seq<UserID>, t2: seq<UserID>, s: seq<UserID>)
    requires InFirstOccurrenceOrder(t1, s) && InFirstOccurrenceOrder(t2, s)
    requires SameElements(t1, t2)
    ensures t1 == t2
    decreases |t1|
  {
    assert |t1| > 0 ==> t1[0] in t2;
    assert |t2| > 0 ==> t2[0] in t1;
    if |t1| > 0 {
      OrderedHeadsEqual(t1, t2, s);
      OrderedTail(t1, s);
      OrderedTail(t2, s);
      var u1, u2 := t1[1..], t2[1..];
      assert t1 == [t1[0]] + u1 && t2 == [t2[0]] + u2;
      forall x ensures x in u1 <==> x in u2 {
        assert x in t1 <==> x in t2;
        assert x in t1 <==> x == t1[0] || x in u1;
        assert x in t2 <==> x == t2[0] || x in u2;
      }
      OrderedListingsEqual(u1, u2, s);
    }
  }

  /** Dedup(s) is the one listing of the users of s by first occurrence:
      it is such a listing, and any such listing equals it. */
  lemma DedupIsTheFirstOccurrenceListing(s: seq<UserID>, t: seq<UserID>)
    ensures IsFirstOccurrenceListing(Dedup(s), s)
    ensures IsFirstOccurrenceListing(t, s) <==> t == Dedup(s)
  {
    DedupKeepsFirstOccurrenceOrder(s);
    if IsFirstOccurrenceListing(t, s) {
      OrderedListingsEqual(t, Dedup(s), s);
    }
  }

  /** A list without repeats is returned unchanged. */
  lemma {:induction false} DedupOfDistinct(s: seq<UserID>)
    requires NoDuplicates(s)
    ensures Dedup(s) == s
    decreases |s|
  {
    if |s| > 0 {
      var n := |s| - 1;
      DedupOfDistinct(s[..n]);
      assert s[n] !in s[..n];
      assert s == s[..n] + [s[n]];
    }
  }

  /** De-duplicating twice gives what de-duplicating once gives. */
  lemma DedupIdempotent(s: seq<UserID>)
    ensures Dedup(Dedup(s)) == Dedup(s)
  {
    DedupOfDistinct(Dedup(s));
  }

  /** A user list argument turned into the stored tuple: a missing list is
      empty, a falsy user is refused, and repeats are dropped keeping the first
      occurrence of each user. */
  function ToTuple(s: Option<seq<UserID>>, field: Field): (r: Result<seq<UserID>, Error>)
    ensures s.None? ==> r == Ok([])
    ensures r.Err? <==> !AllPresent(OrEmpty(s))
    ensures r.Err? ==> r.error == FalsyValue(field)
    ensures r.Ok? ==> IsFirstOccurrenceListing(r.value, OrEmpty(s)) && AllPresent(r.value)
  {
    var items := OrEmpty(s);
    if AllPresent(items) then
      DedupIsTheFirstOccurrenceListing(items, []);
      Ok(Dedup(items))
    else
      Err(FalsyValue(field))
  }

  /** Turning a stored tuple into a tuple again gives it back unchanged. */
  lemma ToTupleIdempotent(s: Option<seq<UserID>>, field: Field)
    ensures ToTuple(s, field).Ok? ==> ToTuple(Some(ToTuple(s, field).value), field) == ToTuple(s, field)
  {
    if ToTuple(s, field).Ok? {
      DedupIdempotent(OrEmpty(s));
    }
  }

  /** The tuple depends only on the distinct users of the argument in their
      first-occurrence order, not on how often they are repeated. */
  lemma ToTupleIgnoresRepeats(s1: Option<seq<UserID>>, s2: Option<seq<UserID>>, field: Field)
    requires Dedup(OrEmpty(s1)) == Dedup(OrEmpty(s2))
    ensures ToTuple(s1, field) == ToTuple(s2, field)
  {
    var a, b := OrEmpty(s1), OrEmpty(s2);
    assert SameElements(a, b) by {
      assert SameElements(Dedup(a), a) && SameElements(Dedup(b), b);
    }
    assert AllPresent(a) <==> AllPresent(b) by {
      if AllPresent(a) {
        forall i | 0 <= i < |b| ensures !IsFalsy(b[i]) {
          assert b[i] in a;
        }
      }
      if AllPresent(b) {
        forall i | 0 <= i < |a| ensures !IsFalsy(a[i]) {
          assert a[i] in b;
        }
      }
    }
  }

  // ---------------------------------------------------------------------------
  // Cross-tier checks
  // ---------------------------------------------------------------------------

  /** The position of the first user of s who also occurs in t, if any. */
  function FirstShared(s: seq<UserID>, t: seq<UserID>): (r: Option<nat>)
    ensures r.None? <==> Disjoint(s, t)
    ensures r.Some? ==> r.value < |s| && s[r.value] in t
    ensures r.Some? ==> forall k :: 0 <= k < r.value ==> s[k] !in t
  {
    if |s| == 0 then None
    else
      assert s == [s[0]] + s[1..];
      if s[0] in t then Some(0)
      else
        match FirstShared(s[1..], t)
        case None => None
        case Some(i) => Some(i + 1)
  }

  /** u is in s and t, and no user of s before its first occurrence is in t. */
  predicate FirstSharedUser(s: seq<UserID>, t: seq<UserID>, u: UserID) {
    u in s && u in t && forall k :: 0 <= k < FirstIndex(s, u) ==> s[k] !in t
  }

  /** No user is in more than one of the three tiers. */
  predicate TiersDisjoint(admin: seq<UserID>, write: seq<UserID>, read: seq<UserID>) {
    Disjoint(admin, write) && Disjoint(admin, read) && Disjoint(write, read)
  }

  /** u is in at least two of the three tiers. */
  predicate InTwoTiers(u: UserID, admin: seq<UserID>, write: seq<UserID>, read: seq<UserID>) {
    (u in admin && u in write) || (u in admin && u in read) || (u in write && u in read)
  }

  /** The duplicate check across the tiers: first every admin user is looked up
      in write and read, then every write user in read; the first user found
      is reported. */
  function CheckAclDuplicates(admin: seq<UserID>, write: seq<UserID>, read: seq<UserID>): (r: Outcome<Error>)
    ensures r.Pass? <==> TiersDisjoint(admin, write, read)
    ensures r.Fail? ==> r.error.IllegalParameter? && r.error.violation.UserInTwoAcls?
    ensures r.Fail? ==> InTwoTiers(r.error.violation.user, admin, write, read)
    ensures !Disjoint(admin, write + read) ==>
              r.Fail? && FirstSharedUser(admin, write + read, r.error.violation.user)
    ensures Disjoint(admin, write + read) && !Disjoint(write, read) ==>
              r.Fail? && FirstSharedUser(write, read, r.error.violation.user)
  {
    match FirstShared(admin, write + read)
    case Some(i) =>
      assert FirstIndex(admin, admin[i]) <= i;
      Fail(IllegalParameter(UserInTwoAcls(admin[i])))
    case None =>
      match FirstShared(write, read)
      case Some(i) =>
        assert FirstIndex(write, write[i]) <= i;
        Fail(IllegalParameter(UserInTwoAcls(write[i])))
      case None => Pass
  }

  /** The duplicate check as the two loops that run it. */
  method ScanAclDuplicates(admin: seq<UserID>, write: seq<UserID>, read: seq<UserID>) returns (r: Outcome<Error>)
    ensures r == CheckAclDuplicates(admin, write, read)
  {
    var i := 0;
    while i < |admin|
      invariant 0 <= i <= |admin|
      invariant forall k :: 0 <= k < i ==> admin[k] !in write + read
    {
      if admin[i] in write || admin[i] in read {
        return Fail(IllegalParameter(UserInTwoAcls(admin[i])));
      }
      i := i + 1;
    }
    var j := 0;
    while j < |write|
      invariant 0 <= j <= |write|
      invariant forall k :: 0 <= k < j ==> write[k] !in read
    {
      if write[j] in read {
        return Fail(IllegalParameter(UserInTwoAcls(write[j])));
      }
      j := j + 1;
    }
    return Pass;
  }

  /** The owner check: the owner is looked up in each of the three tiers. */
  method ScanOwnerInTiers(owner: UserID, admin: seq<UserID>, write: seq<UserID>, read: seq<UserID>)
    returns (r: Outcome<Error>)
    ensures r.Pass? <==> owner !in admin && owner !in write && owner !in read
    ensures r.Fail? ==> r.error == IllegalParameter(OwnerInAcl)
  {
    var all := [admin, write, read];
    var i := 0;
    while i < |all|
      invariant 0 <= i <= |all|
      invariant forall k :: 0 <= k < i ==> owner !in all[k]
    {
      if owner in all[i] {
        return Fail(IllegalParameter(OwnerInAcl));
      }
      i := i + 1;
    }
    assert owner !in all[0] && owner !in all[1] && owner !in all[2];
    return Pass;
  }

  /** The remove-list check: every user to remove is looked up in the set of
      all granted users. */
  method ScanRemoveList(remove: seq<UserID>, admin: seq<UserID>, write: seq<UserID>, read: seq<UserID>)
    returns (r: Outcome<Error>)
    ensures r.Pass? <==> Disjoint(remove, admin + write + read)
    ensures r.Fail? ==> r.error == IllegalParameter(RemovedUserGranted)
  {
    var all := set u | u in admin + write + read;
    var i := 0;
    while i < |remove|
      invariant 0 <= i <= |remove|
      invariant forall k :: 0 <= k < i ==> remove[k] !in all
    {
      if remove[i] in all {
        return Fail(IllegalParameter(RemovedUserGranted));
      }
      i := i + 1;
    }
    return Pass;
  }

  // ---------------------------------------------------------------------------
  // ACL records
  // ---------------------------------------------------------------------------

  /** What every stored set of tiers satisfies: each tier lists present users
      without repeats, and no user is in two tiers. */
  predicate TiersValid(admin: seq<UserID>, write: seq<UserID>, read: seq<UserID>) {
    && NoDuplicates(admin) && NoDuplicates(write) && NoDuplicates(read)
    && AllPresent(admin) && AllPresent(write) && AllPresent(read)
    && TiersDisjoint(admin, write, read)
  }

  /** The tier arguments are accepted: no falsy user in any of them and no
      user in two of them. */
  predicate TierArgsAcceptable(admin: Option<seq<UserID>>, write: Option<seq<UserID>>, read: Option<seq<UserID>>) {
    && AllPresent(OrEmpty(admin)) && AllPresent(OrEmpty(write)) && AllPresent(OrEmpty(read))
    && TiersDisjoint(OrEmpty(admin), OrEmpty(write), OrEmpty(read))
  }

  /** Disjointness of the tiers depends only on which users they hold. */
  lemma TiersDisjointBySameElements(a: seq<UserID>, w: seq<UserID>, r: seq<UserID>,
                                    a': seq<UserID>, w': seq<UserID>, r': seq<UserID>)
    requires SameElements(a, a') && SameElements(w, w') && SameElements(r, r')
    ensures TiersDisjoint(a, w, r) <==> TiersDisjoint(a', w', r')
  {
  }

  /** An access control list of a sample without an owner. */
  datatype SampleACLOwnerless = SampleACLOwnerless(
    admin: seq<UserID>, write: seq<UserID>, read: seq<UserID>, publicRead: bool)
  {
    predicate Valid() {
      TiersValid(admin, write, read)
    }

    /** Equal to another object only if it is an ownerless ACL too, with the
        same tiers and public-read flag. */
    function Equals(other: AclValue): (r: bool)
      ensures r <==> other == OwnerlessAcl(this)
    {
      match other
      case OwnerlessAcl(o) =>
        o.admin == admin && o.write == write && o.read == read && o.publicRead == publicRead
      case _ => false
    }
  }

  /** Builds an ownerless ACL: each tier argument becomes a tuple (admin,
      then write, then read), a missing public-read flag is false, and then
      the tiers are checked for shared users. */
  function NewSampleACLOwnerless(admin: Option<seq<UserID>>, write: Option<seq<UserID>>,
                                 read: Option<seq<UserID>>, publicRead: Option<bool>)
    : (r: Result<SampleACLOwnerless, Error>)
    ensures r.Ok? <==> TierArgsAcceptable(admin, write, read)
    ensures r.Ok? ==> r.value.Valid()
    ensures r.Ok? ==> && IsFirstOccurrenceListing(r.value.admin, OrEmpty(admin))
                      && IsFirstOccurrenceListing(r.value.write, OrEmpty(write))
                      && IsFirstOccurrenceListing(r.value.read, OrEmpty(read))
    ensures r.Ok? ==> r.value.publicRead == (publicRead == Some(true))
    ensures !AllPresent(OrEmpty(admin)) ==> r == Err(FalsyValue(Admin))
    ensures AllPresent(OrEmpty(admin)) && !AllPresent(OrEmpty(write)) ==> r == Err(FalsyValue(Write))
    ensures AllPresent(OrEmpty(admin)) && AllPresent(OrEmpty(write)) && !AllPresent(OrEmpty(read)) ==>
              r == Err(FalsyValue(Read))
    ensures AllPresent(OrEmpty(admin)) && AllPresent(OrEmpty(write)) && AllPresent(OrEmpty(read)) &&
            !TiersDisjoint(OrEmpty(admin), OrEmpty(write), OrEmpty(read)) ==>
              r.Err? && r.error.IllegalParameter?
    ensures r.Err? && r.error.IllegalParameter? ==>
              && r.error.violation.UserInTwoAcls?
              && InTwoTiers(r.error.violation.user, OrEmpty(admin), OrEmpty(write), OrEmpty(read))
  {
    var a :- ToTuple(admin, Admin);
    var w :- ToTuple(write, Write);
    var rd :- ToTuple(read, Read);
    TiersDisjointBySameElements(a, w, rd, OrEmpty(admin), OrEmpty(write), OrEmpty(read));
    match CheckAclDuplicates(a, w, rd)
    case Fail(e) => Err(e)
    case Pass => Ok(SampleACLOwnerless(a, w, rd, publicRead.GetOr(false)))
  }

  /** An access control list of a sample with its owner. */
  datatype SampleACL = SampleACL(
    owner: UserID, lastupdate: Timestamp,
    admin: seq<UserID>, write: seq<UserID>, read: seq<UserID>, publicRead: bool)
  {
    predicate Valid() {
      && !IsFalsy(owner)
      && lastupdate.hasTimezone
      && TiersValid(admin, write, read)
      && owner !in admin && owner !in write && owner !in read
    }

    /** The tiers and public-read flag, without the owner and timestamp. */
    function Tiers(): SampleACLOwnerless {
      SampleACLOwnerless(admin, write, read, publicRead)
    }

    /** Equal to another object only if it is an ACL with an owner too, with
        the same owner, timestamp, tiers and public-read flag; in particular
        never equal to an ownerless ACL with the same tiers. */
    function Equals(other: AclValue): (r: bool)
      ensures r <==> other == OwnedAcl(this)
    {
      match other
      case OwnedAcl(o) =>
        && o.owner == owner && o.lastupdate == lastupdate
        && o.admin == admin && o.write == write && o.read == read && o.publicRead == publicRead
      case _ => false
    }
  }

  /** Builds an ACL: the owner is checked first, then the timestamp, then the
      tiers are built as for an ownerless ACL, and last the owner is looked up
      in each tier. */
  function NewSampleACL(owner: UserID, lastupdate: Option<Timestamp>,
                        admin: Option<seq<UserID>>, write: Option<seq<UserID>>,
                        read: Option<seq<UserID>>, publicRead: Option<bool>)
    : (r: Result<SampleACL, Error>)
    ensures r.Ok? <==>
              && !IsFalsy(owner)
              && lastupdate.Some? && lastupdate.value.hasTimezone
              && TierArgsAcceptable(admin, write, read)
              && owner !in OrEmpty(admin) && owner !in OrEmpty(write) && owner !in OrEmpty(read)
    ensures r.Ok? ==> r.value.Valid() && r.value.owner == owner && lastupdate == Some(r.value.lastupdate)
    ensures r.Ok? ==> NewSampleACLOwnerless(admin, write, read, publicRead) == Ok(r.value.Tiers())
    ensures IsFalsy(owner) ==> r == Err(FalsyValue(Owner))
    ensures !IsFalsy(owner) && lastupdate.None? ==> r == Err(FalsyValue(LastUpdate))
    ensures !IsFalsy(owner) && lastupdate.Some? && !lastupdate.value.hasTimezone ==>
              r == Err(NaiveTimestamp(LastUpdate))
    ensures !IsFalsy(owner) && lastupdate.Some? && lastupdate.value.hasTimezone &&
            NewSampleACLOwnerless(admin, write, read, publicRead).Err? ==>
              r == Err(NewSampleACLOwnerless(admin, write, read, publicRead).error)
    ensures !IsFalsy(owner) && lastupdate.Some? && lastupdate.value.hasTimezone &&
            TierArgsAcceptable(admin, write, read) &&
            (owner in OrEmpty(admin) || owner in OrEmpty(write) || owner in OrEmpty(read)) ==>
              r == Err(IllegalParameter(OwnerInAcl))
  {
    if IsFalsy(owner) then Err(FalsyValue(Owner))
    else
      var ts :- CheckTimestamp(lastupdate, LastUpdate);
      var base :- NewSampleACLOwnerless(admin, write, read, publicRead);
      if owner in base.admin || owner in base.write || owner in base.read then
        Err(IllegalParameter(OwnerInAcl))
      else
        Ok(SampleACL(owner, ts, base.admin, base.write, base.read, base.publicRead))
  }

  /** A requested change to a sample's ACL: users to grant each tier, users to
      remove from every tier, and a public-read change (None for no change). */
  datatype SampleACLDelta = SampleACLDelta(
    lastupdate: Timestamp,
    admin: seq<UserID>, write: seq<UserID>, read: seq<UserID>, remove: seq<UserID>,
    publicRead: Option<bool>)
  {
    predicate Valid() {
      && lastupdate.hasTimezone
      && TiersValid(admin, write, read)
      && NoDuplicates(remove) && AllPresent(remove)
      && Disjoint(remove, admin + write + read)
    }

    /** Equal to another object only if it is an ACL delta too, with the same
        timestamp, user lists and public-read change. */
    function Equals(other: AclValue): (r: bool)
      ensures r <==> other == AclDelta(this)
    {
      match other
      case AclDelta(o) =>
        && o.lastupdate == lastupdate
        && o.admin == admin && o.write == write && o.read == read && o.remove == remove
        && o.publicRead == publicRead
      case _ => false
    }
  }

  /** Builds an ACL delta: the timestamp is checked first, then the four user
      lists become tuples (admin, write, read, remove), then the tiers are
      checked for shared users, and last the remove list is checked against
      every granted user. */
  function NewSampleACLDelta(lastupdate: Option<Timestamp>,
                             admin: Option<seq<UserID>>, write: Option<seq<UserID>>,
                             read: Option<seq<UserID>>, remove: Option<seq<UserID>>,
                             publicRead: Option<bool>)
    : (r: Result<SampleACLDelta, Error>)
    ensures r.Ok? <==>
              && lastupdate.Some? && lastupdate.value.hasTimezone
              && TierArgsAcceptable(admin, write, read)
              && AllPresent(OrEmpty(remove))
              && Disjoint(OrEmpty(remove), OrEmpty(admin) + OrEmpty(write) + OrEmpty(read))
    ensures r.Ok? ==> r.value.Valid() && lastupdate == Some(r.value.lastupdate)
    ensures r.Ok? ==> && IsFirstOccurrenceListing(r.value.admin, OrEmpty(admin))
                      && IsFirstOccurrenceListing(r.value.write, OrEmpty(write))
                      && IsFirstOccurrenceListing(r.value.read, OrEmpty(read))
                      && IsFirstOccurrenceListing(r.value.remove, OrEmpty(remove))
    ensures r.Ok? ==> r.value.publicRead == publicRead
    ensures lastupdate.None? ==> r == Err(FalsyValue(LastUpdate))
    ensures lastupdate.Some? && !lastupdate.value.hasTimezone ==> r == Err(NaiveTimestamp(LastUpdate))
    ensures lastupdate.Some? && lastupdate.value.hasTimezone ==>
              && (!AllPresent(OrEmpty(admin)) ==> r == Err(FalsyValue(Admin)))
              && (AllPresent(OrEmpty(admin)) && !AllPresent(OrEmpty(write)) ==> r == Err(FalsyValue(Write)))
              && (AllPresent(OrEmpty(admin)) && AllPresent(OrEmpty(write)) && !AllPresent(OrEmpty(read)) ==>
                    r == Err(FalsyValue(Read)))
              && ((AllPresent(OrEmpty(admin)) && AllPresent(OrEmpty(write)) && AllPresent(OrEmpty(read)) &&
                   !AllPresent(OrEmpty(remove))) ==> r == Err(FalsyValue(Remove)))
    ensures lastupdate.Some? && lastupdate.value.hasTimezone &&
            AllPresent(OrEmpty(admin)) && AllPresent(OrEmpty(write)) && AllPresent(OrEmpty(read)) &&
            AllPresent(OrEmpty(remove)) && !TiersDisjoint(OrEmpty(admin), OrEmpty(write), OrEmpty(read)) ==>
              r.Err? && r.error.IllegalParameter? && r.error.violation.UserInTwoAcls?
    ensures r.Err? && r.error.IllegalParameter? && r.error.violation.UserInTwoAcls? ==>
              InTwoTiers(r.error.violation.user, OrEmpty(admin), OrEmpty(write), OrEmpty(read))
    ensures lastupdate.Some? && lastupdate.value.hasTimezone && TierArgsAcceptable(admin, write, read) &&
            AllPresent(OrEmpty(remove)) &&
            !Disjoint(OrEmpty(remove), OrEmpty(admin) + OrEmpty(write) + OrEmpty(read)) ==>
              r == Err(IllegalParameter(RemovedUserGranted))
  {
    var ts :- CheckTimestamp(lastupdate, LastUpdate);
    var a :- ToTuple(admin, Admin);
    var w :- ToTuple(write, Write);
    var rd :- ToTuple(read, Read);
    var rm :- ToTuple(remove, Remove);
    TiersDisjointBySameElements(a, w, rd, OrEmpty(admin), OrEmpty(write), OrEmpty(read));
    match CheckAclDuplicates(a, w, rd)
    case Fail(e) => Err(e)
    case Pass =>
      if Disjoint(rm, a + w + rd) then Ok(SampleACLDelta(ts, a, w, rd, rm, publicRead))
      else Err(IllegalParameter(RemovedUserGranted))
  }

  // ---------------------------------------------------------------------------
  // Equality
  // ---------------------------------------------------------------------------

  /** An object of one of the three ACL classes, as the other side of an
      equality test. */
  datatype AclValue =
    | OwnerlessAcl(ownerless: SampleACLOwnerless)
    | OwnedAcl(acl: SampleACL)
    | AclDelta(delta: SampleACLDelta)

  // ---------------------------------------------------------------------------
  // Properties of construction
  // ---------------------------------------------------------------------------

  /** Every valid ownerless ACL is what the constructor builds from its own
      fields. */
  lemma SampleACLOwnerlessRoundTrip(x: SampleACLOwnerless)
    requires x.Valid()
    ensures NewSampleACLOwnerless(Some(x.admin), Some(x.write), Some(x.read), Some(x.publicRead)) == Ok(x)
  {
    DedupOfDistinct(x.admin);
    DedupOfDistinct(x.write);
    DedupOfDistinct(x.read);
  }

  /** Every valid ACL is what the constructor builds from its own fields. */
  lemma SampleACLRoundTrip(x: SampleACL)
    requires x.Valid()
    ensures NewSampleACL(x.owner, Some(x.lastupdate), Some(x.admin), Some(x.write), Some(x.read),
                         Some(x.publicRead)) == Ok(x)
  {
    SampleACLOwnerlessRoundTrip(x.Tiers());
  }

  /** Every valid ACL delta is what the constructor builds from its own fields. */
  lemma SampleACLDeltaRoundTrip(x: SampleACLDelta)
    requires x.Valid()
    ensures NewSampleACLDelta(Some(x.lastupdate), Some(x.admin), Some(x.write), Some(x.read),
                              Some(x.remove), x.publicRead) == Ok(x)
  {
    DedupOfDistinct(x.admin);
    DedupOfDistinct(x.write);
    DedupOfDistinct(x.read);
    DedupOfDistinct(x.remove);
  }

  /** Arguments that differ only in repeated users, or in None against an
      empty list, build equal ownerless ACLs (or fail alike). */
  lemma SampleACLOwnerlessIgnoresRepeats(
    admin1: Option<seq<UserID>>, write1: Option<seq<UserID>>, read1: Option<seq<UserID>>,
    admin2: Option<seq<UserID>>, write2: Option<seq<UserID>>, read2: Option<seq<UserID>>,
    publicRead: Option<bool>)
    requires Dedup(OrEmpty(admin1)) == Dedup(OrEmpty(admin2))
    requires Dedup(OrEmpty(write1)) == Dedup(OrEmpty(write2))
    requires Dedup(OrEmpty(read1)) == Dedup(OrEmpty(read2))
    ensures NewSampleACLOwnerless(admin1, write1, read1, publicRead)
         == NewSampleACLOwnerless(admin2, write2, read2, publicRead)
  {
    ToTupleIgnoresRepeats(admin1, admin2, Admin);
    ToTupleIgnoresRepeats(write1, write2, Write);
    ToTupleIgnoresRepeats(read1, read2, Read);
  }

  /** Arguments that differ only in repeated users, or in None against an
      empty list, build equal ACLs (or fail alike). */
  lemma SampleACLIgnoresRepeats(
    owner: UserID, lastupdate: Option<Timestamp>,
    admin1: Option<seq<UserID>>, write1: Option<seq<UserID>>, read1: Option<seq<UserID>>,
    admin2: Option<seq<UserID>>, write2: Option<seq<UserID>>, read2: Option<seq<UserID>>,
    publicRead: Option<bool>)
    requires Dedup(OrEmpty(admin1)) == Dedup(OrEmpty(admin2))
    requires Dedup(OrEmpty(write1)) == Dedup(OrEmpty(write2))
    requires Dedup(OrEmpty(read1)) == Dedup(OrEmpty(read2))
    ensures NewSampleACL(owner, lastupdate, admin1, write1, read1, publicRead)
         == NewSampleACL(owner, lastupdate, admin2, write2, read2, publicRead)
  {
    SampleACLOwnerlessIgnoresRepeats(admin1, write1, read1, admin2, write2, read2, publicRead);
  }

  /** Arguments that differ only in repeated users, or in None against an
      empty list, build equal ACL deltas (or fail alike). */
  lemma SampleACLDeltaIgnoresRepeats(
    lastupdate: Option<Timestamp>,
    admin1: Option<seq<UserID>>, write1: Option<seq<UserID>>, read1: Option<seq<UserID>>,
    remove1: Option<seq<UserID>>,
    admin2: Option<seq<UserID>>, write2: Option<seq<UserID>>, read2: Option<seq<UserID>>,
    remove2: Option<seq<UserID>>,
    publicRead: Option<bool>)
    requires Dedup(OrEmpty(admin1)) == Dedup(OrEmpty(admin2))
    requires Dedup(OrEmpty(write1)) == Dedup(OrEmpty(write2))
    requires Dedup(OrEmpty(read1)) == Dedup(OrEmpty(read2))
    requires Dedup(OrEmpty(remove1)) == Dedup(OrEmpty(remove2))
    ensures NewSampleACLDelta(lastupdate, admin1, write1, read1, remove1, publicRead)
         == NewSampleACLDelta(lastupdate, admin2, write2, read2, remove2, publicRead)
  {
    ToTupleIgnoresRepeats(admin1, admin2, Admin);
    ToTupleIgnoresRepeats(write1, write2, Write);
    ToTupleIgnoresRepeats(read1, read2, Read);
    ToTupleIgnoresRepeats(remove1, remove2, Remove);
  }
}
