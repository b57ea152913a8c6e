/** The user collection of server/server.js: the Mongoose schema's record,
    its two unique indexes (email, referralCode) plus the implicit one on _id,
    its `required` validators, and the two ways the handlers write records:
    `doc.save()` (which runs the referral-code pre-save hook) and
    `Model.insertMany()` (which does not). */
module Users {
  import opened Collections
  import opened ReferralCode

  /** A stored user record. A missing referral code is the empty string, the
      value JavaScript treats as absent; the stored password is the bcrypt
      hash, never the plain text. */
  datatype User = User(
    id: nat,
    name: string,
    email: string,
    passwordHash: string,
    referralCode: string,
    donationsRaised: int,
    joiningDate: int)

  datatype DbError = ValidationError | DuplicateKey

  datatype Saved = Stored(users: seq<User>) | Rejected(error: DbError)

  /** The schema's `required: true` fields (a required String may not be empty). */
  predicate HasRequiredFields(u: User) {
    u.name != "" && u.email != "" && u.passwordHash != ""
  }

  /** The pre-save hook: derive a code from the name only when none is set. */
  function AssignReferralCode(u: User): (r: User)
    ensures r.referralCode != ""
    ensures u.referralCode != "" ==> r == u
    ensures u.referralCode == "" ==> r.referralCode == CodeFor(u.name)
    ensures r.(referralCode := u.referralCode) == u
  {
    if u.referralCode == "" then u.(referralCode := CodeFor(u.name)) else u
  }

  ghost predicate EmailsUnique(users: seq<User>) {
    forall i, j :: 0 <= i < j < |users| ==> users[i].email != users[j].email
  }

  ghost predicate CodesUnique(users: seq<User>) {
    forall i, j :: 0 <= i < j < |users| ==> users[i].referralCode != users[j].referralCode
  }

  ghost predicate IdsUnique(users: seq<User>) {
    forall i, j :: 0 <= i < j < |users| ==> users[i].id != users[j].id
  }

  /** What the three unique indexes of the collection guarantee. */
  ghost predicate Unique(users: seq<User>) {
    EmailsUnique(users) && CodesUnique(users) && IdsUnique(users)
  }

  /** `a` and `b` agree on one of the uniquely indexed keys (_id, email, referralCode). */
  predicate SharesKey(a: User, b: User) {
    a.id == b.id || a.email == b.email || a.referralCode == b.referralCode
  }

  /** Saving `b` is refused by a unique index because of the stored record `a`:
      a different record already holds b's email or referral code. */
  predicate Clashes(a: User, b: User) {
    a.id != b.id && SharesKey(a, b)
  }
  function IndexOfId(users: seq<User>, id: nat): (r: Option<nat>)
    ensures r.Some? ==> r.value < |users| && users[r.value].id == id
    ensures r.None? <==> forall k :: 0 <= k < |users| ==> users[k].id != id
  {
    IndexWhere(users, (u: User) => u.id == id)
  }

  /** `User.findOne({ email })`. */
  function FindByEmail(users: seq<User>, email: string): (r: Option<User>)
    ensures r.Some? ==> r.value in users && r.value.email == email
    ensures r.None? <==> forall k :: 0 <= k < |users| ==> users[k].email != email
  {
    match IndexWhere(users, (u: User) => u.email == email)
    case None => None
    case Some(i) => Some(users[i])
  }

  /** `User.findById(id)`. */
  function FindById(users: seq<User>, id: nat): (r: Option<User>)
    ensures r.Some? ==> r.value in users && r.value.id == id
    ensures r.None? <==> forall k :: 0 <= k < |users| ==> users[k].id != id
  {
    match IndexOfId(users, id)
    case None => None
    case Some(i) => Some(users[i])
  }

  /** In a collection with unique emails, the record found is the one holding the email. */
  lemma FindByEmailUnique(users: seq<User>, k: nat)
    requires EmailsUnique(users) && k < |users|
    ensures FindByEmail(users, users[k].email) == Some(users[k])
  {
  }

  /** In a collection with unique ids, the record found is the one holding the id. */
  lemma FindByIdUnique(users: seq<User>, k: nat)
    requires IdsUnique(users) && k < |users|
    ensures FindById(users, users[k].id) == Some(users[k])
    ensures IndexOfId(users, users[k].id) == Some(k)
  {
  }

  /** Appending a record that shares no key with any stored one keeps every key unique. */
  lemma AppendKeepsUnique(users: seq<User>, d: User)
    ensures (forall j :: 0 <= j < |users| ==> !SharesKey(users[j], d)) && Unique(users) ==>
      Unique(users + [d])
  {
  }

  /** Replacing a record by one with the same id that clashes with no other keeps every key unique. */
  lemma ReplaceKeepsUnique(users: seq<User>, i: nat, d: User)
    requires i < |users| && users[i].id == d.id
    ensures (forall j :: 0 <= j < |users| ==> !Clashes(users[j], d)) && Unique(users) ==>
      Unique(users[i := d])
  {
    if (forall j :: 0 <= j < |users| ==> !Clashes(users[j], d)) && Unique(users) {
      var s := users[i := d];
      forall a, b | 0 <= a < b < |s|
        ensures s[a].email != s[b].email && s[a].referralCode != s[b].referralCode && s[a].id != s[b].id
      {
        if a == i {
          assert users[b].id != users[i].id;
          assert !Clashes(users[b], d);
        } else if b == i {
          assert users[a].id != users[i].id;
          assert !Clashes(users[a], d);
        }
      }
    }
  }

  /** The write `doc.save()` performs once validation and the indexes let it through. */
  function Write(users: seq<User>, d: User): (r: seq<User>)
    ensures IndexOfId(users, d.id).None? ==> r == users + [d]
    ensures IndexOfId(users, d.id).Some? ==> r == users[IndexOfId(users, d.id).value := d]
    ensures (forall j :: 0 <= j < |users| ==> !Clashes(users[j], d)) && Unique(users) ==>
      Unique(r) && FindByEmail(r, d.email) == Some(d)
  {
    match IndexOfId(users, d.id)
    case None =>
      AppendKeepsUnique(users, d);
      WrittenIsFound(users, users + [d], |users|, d);
      users + [d]
    case Some(i) =>
      ReplaceKeepsUnique(users, i, d);
      WrittenIsFound(users, users[i := d], i, d);
      users[i := d]
  }

  lemma WrittenIsFound(users: seq<User>, r: seq<User>, k: nat, d: User)
    requires k < |r| && r[k] == d
    ensures EmailsUnique(r) ==> FindByEmail(r, d.email) == Some(d)
  {
    if EmailsUnique(r) {
      FindByEmailUnique(r, k);
    }
  }

  /** `doc.save()`: validation, the pre-save hook, then the unique indexes.
      The model tells an insert from an update by whether the document's id
      is already stored: a new id is inserted, a stored one replaced. */
  function Save(users: seq<User>, doc: User): (r: Saved)
    ensures r.Stored? <==>
      HasRequiredFields(doc) &&
      forall j :: 0 <= j < |users| ==> !Clashes(users[j], AssignReferralCode(doc))
    ensures !HasRequiredFields(doc) ==> r == Rejected(ValidationError)
    ensures r.Rejected? && HasRequiredFields(doc) ==> r.error == DuplicateKey
    ensures r.Stored? ==> r.users == Write(users, AssignReferralCode(doc))
    ensures r.Stored? && Unique(users) ==>
      Unique(r.users) && FindByEmail(r.users, doc.email) == Some(AssignReferralCode(doc))
  {
    var d := AssignReferralCode(doc);
    if !HasRequiredFields(doc) then Rejected(ValidationError)
    else if exists j :: 0 <= j < |users| && Clashes(users[j], d) then Rejected(DuplicateKey)
    else Stored(Write(users, d))
  }

  /** A new document without a code whose name derives a code some other
      stored record holds is refused by the index on `referralCode`. */
  lemma SaveRefusesTakenCode(users: seq<User>, doc: User, k: nat)
    requires k < |users| && HasRequiredFields(doc) && doc.referralCode == ""
    requires users[k].id != doc.id && users[k].referralCode == CodeFor(doc.name)
    ensures Save(users, doc) == Rejected(DuplicateKey)
  {
    assert Clashes(users[k], AssignReferralCode(doc));
  }

  /** After "John Doe" is stored with his derived code, a signup as "johndoe"
      cannot be saved, although its name and e-mail are new. */
  lemma JohndoeRefusedAfterJohnDoe(first: User, doc: User)
    requires first.name == "John Doe" && first.referralCode == CodeFor(first.name)
    requires doc.name == "johndoe" && doc.referralCode == "" && doc.id != first.id
    requires HasRequiredFields(doc)
    ensures Save([first], doc) == Rejected(DuplicateKey)
  {
    CollidingNames();
    SaveRefusesTakenCode([first], doc, 0);
  }

  /** Saving a stored record again with its keys unchanged replaces it in place. */
  lemma ResaveReplaces(users: seq<User>, i: nat, d: User)
    requires Unique(users) && i < |users| && HasRequiredFields(d)
    requires d.id == users[i].id && d.email == users[i].email
    requires d.referralCode == users[i].referralCode != ""
    ensures Save(users, d) == Stored(users[i := d])
    ensures Unique(users[i := d])
  {
    assert AssignReferralCode(d) == d;
    FindByIdUnique(users, i);
    forall j | 0 <= j < |users|
      ensures !Clashes(users[j], d)
    {
      if j < i {
        assert users[j].id != d.id && users[j].email != d.email && users[j].referralCode != d.referralCode;
      } else if j > i {
        assert users[i].id != users[j].id && users[i].email != users[j].email && users[i].referralCode != users[j].referralCode;
      }
    }
  }

  datatype InsertOutcome = InsertOutcome(users: seq<User>, failure: Option<DbError>)

  /** `Model.insertMany(docs)`: every document is validated first and, if one
      fails, nothing is written; then the documents are inserted in order
      (no pre-save hook runs) until a unique index refuses one. The records
      inserted before that one stay. */
  function InsertMany(users: seq<User>, docs: seq<User>): (r: InsertOutcome)
    ensures (exists k :: 0 <= k < |docs| && !HasRequiredFields(docs[k])) ==>
      r == InsertOutcome(users, Some(ValidationError))
    ensures r.failure == Some(ValidationError) ==>
      exists k :: 0 <= k < |docs| && !HasRequiredFields(docs[k])
    ensures |users| <= |r.users| <= |users| + |docs|
    ensures r.users == users + docs[..|r.users| - |users|]
    ensures r.failure.None? <==> r.users == users + docs
    ensures r.failure == Some(DuplicateKey) ==> |r.users| - |users| < |docs|
    ensures r.failure == Some(DuplicateKey) ==>
      exists j :: 0 <= j < |r.users| && SharesKey(r.users[j], docs[|r.users| - |users|])
    ensures Unique(users) ==> Unique(r.users)
  {
    if exists k :: 0 <= k < |docs| && !HasRequiredFields(docs[k]) then
      InsertOutcome(users, Some(ValidationError))
    else
      InsertInOrder(users, docs)
  }

  function InsertInOrder(users: seq<User>, docs: seq<User>): (r: InsertOutcome)
    ensures |users| <= |r.users| <= |users| + |docs|
    ensures r.users == users + docs[..|r.users| - |users|]
    ensures r.failure.None? <==> r.users == users + docs
    ensures r.failure.Some? ==> r.failure.value == DuplicateKey
    ensures r.failure.Some? ==> |r.users| - |users| < |docs|
    ensures r.failure.Some? ==>
      exists j :: 0 <= j < |r.users| && SharesKey(r.users[j], docs[|r.users| - |users|])
    ensures Unique(users) ==> Unique(r.users)
    decreases |docs|
  {
    if docs == [] then InsertOutcome(users, None)
    else if exists j :: 0 <= j < |users| && SharesKey(users[j], docs[0]) then
      InsertOutcome(users, Some(DuplicateKey))
    else
      AppendKeepsUnique(users, docs[0]);
      var r := InsertInOrder(users + [docs[0]], docs[1..]);
      PrefixOfTail(users, docs, |r.users| - |users|);
      assert r.failure.Some? ==> docs[1..][|r.users| - |users| - 1] == docs[|r.users| - |users|];
      r
  }

  /** Documents that are valid and share no key with each other or with the
      stored records are all inserted. */
  lemma {:induction false} InsertManyDistinct(users: seq<User>, docs: seq<User>)
    requires forall k :: 0 <= k < |docs| ==> HasRequiredFields(docs[k])
    requires forall j, k :: 0 <= j < |users| && 0 <= k < |docs| ==> !SharesKey(users[j], docs[k])
    requires forall a, b :: 0 <= a < b < |docs| ==> !SharesKey(docs[a], docs[b])
    ensures InsertMany(users, docs) == InsertOutcome(users + docs, None)
  {
    InsertInOrderDistinct(users, docs);
  }

  lemma {:induction false} InsertInOrderDistinct(users: seq<User>, docs: seq<User>)
    requires forall j, k :: 0 <= j < |users| && 0 <= k < |docs| ==> !SharesKey(users[j], docs[k])
    requires forall a, b :: 0 <= a < b < |docs| ==> !SharesKey(docs[a], docs[b])
    ensures InsertInOrder(users, docs) == InsertOutcome(users + docs, None)
    decreases |docs|
  {
    if docs != [] {
      var next := users + [docs[0]];
      forall j, k | 0 <= j < |next| && 0 <= k < |docs[1..]|
        ensures !SharesKey(next[j], docs[1..][k])
      {
        if j == |users| {
          assert !SharesKey(docs[0], docs[k + 1]);
        } else {
          assert !SharesKey(users[j], docs[k + 1]);
        }
      }
      assert !(exists j :: 0 <= j < |users| && SharesKey(users[j], docs[0])) by {
        forall j | 0 <= j < |users| ensures !SharesKey(users[j], docs[0]) {
          assert !SharesKey(users[j], docs[0]);
        }
      }
      InsertInOrderDistinct(next, docs[1..]);
      assert next + docs[1..] == users + docs;
    }
  }
}
