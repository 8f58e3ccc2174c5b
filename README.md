# Sample ACL value objects

This project models the access-control-list layer of the sample service in Dafny. The layer is `lib/SampleService/core/acls.py`. It has these parts:

- the two ordered permission enums, `SampleAccessType` (NONE < READ < WRITE < ADMIN < OWNER) and `AdminPermission` (NONE < READ < FULL);
- `_to_tuple`, which turns a user-list argument into a stored tuple. A missing list becomes empty, a falsy user is refused, and repeats are dropped while each user's first occurrence is kept;
- `_check_acl_duplicates`, which refuses any user found in more than one of the admin, write and read tiers;
- the three validated, immutable records and their constructors:
  - `SampleACLOwnerless`: admin, write, read and a public-read flag;
  - `SampleACL`: adds an owner and a last-update time. The owner may not be in any tier;
  - `SampleACLDelta`: a requested change. It has grant lists, a remove list that may not overlap them, and a tri-state public-read change;
- the structural `__eq__` of each class.

Files:

- `wrappers.dfy`: module `Wrappers`, holding `Option`, `Result` and `Outcome`. A raised exception becomes an `Err` or `Fail` value.
- `acls.dfy`: module `Acls`, the whole model.

Modelling choices:

- **Users.** A user is a `UserID = string`. The empty string stands for any falsy value, such as `None`, where a user is expected.
- **Timestamps.** A timestamp is `Timestamp(instant, hasTimezone)`. An aware datetime is identified by its instant, which is how Python compares aware datetimes.
- **Optional arguments.** An optional argument that may be `None` is an `Option`.
- **Constructors.** Each constructor is a function returning `Result<record, Error>`. It fails with the first error in the source's own order of checks.
- **Errors.** The error kinds are `FalsyValue(field)`, `NaiveTimestamp(field)` and `IllegalParameter(violation)`. The violation is one of `UserInTwoAcls(user)`, `OwnerInAcl` or `RemovedUserGranted`. `FalsyValue` and `NaiveTimestamp` both stand for the `ValueError` that `not_falsy`, `not_falsy_in_iterable` and `check_timestamp` raise; they are not the repository's `MissingParameterError`.
- **The loops.** Three loops only read their data and leave at the first offender: the duplicate check, the owner check and the remove-list check. Each is also written as a method with a `while` loop (`Scan…`). Each method is proved against the function or condition that the constructor functions use.

The model follows these facts of the code:

- The stored tiers are ordered tuples (acls.py:66-68, 189-192).
- Every invariant violation raises `IllegalParameterError` (acls.py:93, 96, 137, 198).

## Model

| member | source | states |
|---|---|---|
| `Acls.SampleAccessTypes` | lib/SampleService/core/acls.py:19-27 | lists every access level exactly at its value's position; values strictly increase in declaration order NONE < READ < WRITE < ADMIN < OWNER |
| `Acls.SampleAccessTypeOf` | lib/SampleService/core/acls.py:19-27 | looking up an access level by integer succeeds exactly for 1..5 and gives the member with that value |
| `Acls.SampleAccessTypeRoundTrip` | lib/SampleService/core/acls.py:19-27 | every access level is found again from its value |
| `Acls.AdminPermissions` | lib/SampleService/core/acls.py:30-36 | lists every admin permission at its value's position; values strictly increase NONE < READ < FULL |
| `Acls.AdminPermissionOf` | lib/SampleService/core/acls.py:30-36 | looking up an admin permission by integer succeeds exactly for 1..3 and gives the member with that value |
| `Acls.AdminPermissionRoundTrip` | lib/SampleService/core/acls.py:30-36 | every admin permission is found again from its value |
| `Acls.CheckTimestamp` | lib/SampleService/core/acls.py:132 | stand-in for the timestamp check on `lastupdate`: accepts exactly a present, time-zone-aware timestamp and returns it; a missing one fails with FalsyValue, a naive one with NaiveTimestamp |
| `Acls.Dedup` | lib/SampleService/core/acls.py:86-87 | the insertion-ordered dictionary's keys have no repeats and hold exactly the users of the input |
| `Acls.DedupKeepsFirstOccurrenceOrder` | lib/SampleService/core/acls.py:85-87 | the kept users appear in the order of their first occurrence in the input |
| `Acls.DedupIsTheFirstOccurrenceListing` | lib/SampleService/core/acls.py:85-87 | the de-duplicated list is the one and only repeat-free listing of the input's users by first occurrence |
| `Acls.DedupOfDistinct` | lib/SampleService/core/acls.py:85-87 | a list without repeats is returned unchanged |
| `Acls.DedupIdempotent` | lib/SampleService/core/acls.py:85-87 | de-duplicating twice gives the same as once |
| `Acls.ToTuple` | lib/SampleService/core/acls.py:84-87 | None gives the empty tuple; failure (FalsyValue for that argument) exactly when some user is falsy; otherwise the first-occurrence listing of the users, all present |
| `Acls.ToTupleIdempotent` | lib/SampleService/core/acls.py:84-87 | converting a produced tuple again returns it unchanged |
| `Acls.ToTupleIgnoresRepeats` | lib/SampleService/core/acls.py:84-87 | two arguments with the same users in the same first-occurrence order give the same outcome, including None against an empty list |
| `Acls.CheckAclDuplicates` | lib/SampleService/core/acls.py:90-96 | passes exactly when admin, write and read are pairwise disjoint; a failure is IllegalParameter naming a user in two tiers; the first admin found in write or read is reported before any write user found in read |
| `Acls.ScanAclDuplicates` | lib/SampleService/core/acls.py:90-96 | the two early-exit loops give exactly the outcome of the duplicate check |
| `Acls.ScanOwnerInTiers` | lib/SampleService/core/acls.py:134-137 | the loop over the three tiers passes exactly when the owner is in none of them, otherwise fails with OwnerInAcl |
| `Acls.ScanRemoveList` | lib/SampleService/core/acls.py:195-198 | the loop over the remove list passes exactly when no removed user is granted anything, otherwise fails with RemovedUserGranted |
| `Acls.NewSampleACLOwnerless` | lib/SampleService/core/acls.py:50-70 | succeeds exactly when no tier argument has a falsy user and no user is in two tiers; the result is valid, each tier is the first-occurrence listing of its argument, public_read is false for None; errors come admin, write, read, then duplicates, and a duplicate error names a user in two tiers |
| `Acls.NewSampleACL` | lib/SampleService/core/acls.py:111-137 | a falsy owner fails first, a missing or naive lastupdate next, then the ownerless construction's errors, then OwnerInAcl; succeeds exactly when all hold and the owner is in no tier; the result is valid and its tiers are what the ownerless constructor builds |
| `Acls.NewSampleACLDelta` | lib/SampleService/core/acls.py:168-198 | lastupdate fails first, then admin, write, read, remove tuples, then duplicates, then any removed user that is also granted; succeeds exactly when none of these applies; the result is valid and public_read is stored unchanged (None means no change) |
| `Acls.SampleACLOwnerless.Equals` | lib/SampleService/core/acls.py:72-78 | equal exactly to an ownerless ACL with the same admin, write, read and public_read; never to an object of another class |
| `Acls.SampleACL.Equals` | lib/SampleService/core/acls.py:139-147 | equal exactly to an ACL with the same owner, lastupdate, tiers and public_read; never to an ownerless ACL or a delta |
| `Acls.SampleACLDelta.Equals` | lib/SampleService/core/acls.py:200-208 | equal exactly to a delta with the same lastupdate, admin, write, read, remove and public_read; never to an ACL |
| `Acls.SampleACLOwnerlessRoundTrip` | lib/SampleService/core/acls.py:50-70 | every valid ownerless ACL is what the constructor builds from its own fields |
| `Acls.SampleACLRoundTrip` | lib/SampleService/core/acls.py:111-137 | every valid ACL is what the constructor builds from its own fields |
| `Acls.SampleACLDeltaRoundTrip` | lib/SampleService/core/acls.py:168-198 | every valid ACL delta is what the constructor builds from its own fields |
| `Acls.SampleACLOwnerlessIgnoresRepeats` | lib/SampleService/core/acls.py:66-70 | arguments that differ only in repeated users, or in None against an empty list, give equal ownerless ACLs or the same error |
| `Acls.SampleACLIgnoresRepeats` | lib/SampleService/core/acls.py:131-137 | arguments that differ only in repeated users give equal ACLs or the same error |
| `Acls.SampleACLDeltaIgnoresRepeats` | lib/SampleService/core/acls.py:188-198 | arguments that differ only in repeated users give equal deltas or the same error |

## Left out

- `__hash__` of the three classes: Python hash values depend on the interpreter. Each hash is taken over exactly the fields that `__eq__` compares, so equal objects hash equal. No hash function is modelled.
- Error message texts: only the error kind, the field and, for a user in two tiers, the user are modelled.
- `SampleService.core.arg_checkers` (`not_falsy`, `not_falsy_in_iterable`, `check_timestamp`), `SampleService.core.user` (`UserID`) and `SampleService.core.errors` are not part of this model. They are stood in for as follows:
  - `Acls.IsFalsy` (acls.dfy:98): a falsy value is the empty name;
  - `Acls.CheckTimestamp` (acls.dfy:122): `check_timestamp` refuses a missing timestamp and a naive one.
- The time zone of a timestamp beyond whether it has one: aware datetimes compare by instant.
- `public_read` is compared with `is` in two `__eq__` methods. For booleans and None this is the same as value equality, which the model uses.
- Applying a delta to a stored ACL: no such operation is part of this code.
- `DataLink` and its string rendering: its implementation is not part of this model.
