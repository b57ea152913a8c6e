/** The route handlers of server/server.js over an in-memory user collection:
    signup, login, dashboard, leaderboard, donation update and demo seeding.
    Hashing with bcrypt happens outside: signup receives the hash and login
    receives the comparison. A signed token is represented by its payload. */
module Api {
  import opened Collections
  import opened ReferralCode
  import opened Users
  import opened Auth
  import opened Ranking

  /** The `user` object returned by signup and login (no password). */
  datatype PublicUser = PublicUser(id: nat, name: string, email: string, referralCode: string, donationsRaised: int)

  /** The dashboard response (no password). */
  datatype DashboardView = DashboardView(name: string, email: string, referralCode: string, donationsRaised: int, joiningDate: int)

  datatype Body =
    | Error(error: string)
    | Session(message: string, token: Claims, user: PublicUser)
    | Profile(view: DashboardView)
    | Board(entries: seq<Entry>)
    | Total(message: string, donationsRaised: int)
    | Notice(message: string)

  datatype Response = Response(status: nat, body: Body)

  const UserExists := Response(400, Error("User already exists"))
  const InvalidCredentials := Response(400, Error("Invalid credentials"))
  const UserNotFound := Response(404, Error("User not found"))
  const ServerError := Response(500, Error("Server error"))
  const DemoExists := Response(200, Notice("Demo data already exists"))
  const DemoCreated := Response(200, Notice("Demo data created successfully"))

  /** The response `authenticateToken` sends when it stops a request. */
  function Deny(d: Denial): (r: Response)
    ensures r.status == d.status && r.body.Error? && r.body.error == d.error
  {
    Response(d.status, Error(d.error))
  }

  /** A missing token is answered 401 and a rejected one 403, each with its own message. */
  lemma GateDenials()
    ensures Deny(MissingToken) == Response(401, Error("Access token required"))
    ensures Deny(InvalidToken) == Response(403, Error("Invalid token"))
    ensures Deny(MissingToken) != Deny(InvalidToken)
  {
  }

  function PublicView(u: User): (p: PublicUser)
    ensures p.id == u.id && p.name == u.name && p.email == u.email
    ensures p.referralCode == u.referralCode && p.donationsRaised == u.donationsRaised
  {
    PublicUser(u.id, u.name, u.email, u.referralCode, u.donationsRaised)
  }

  function DashboardOf(u: User): (v: DashboardView)
    ensures v.name == u.name && v.email == u.email && v.referralCode == u.referralCode
    ensures v.donationsRaised == u.donationsRaised && v.joiningDate == u.joiningDate
  {
    DashboardView(u.name, u.email, u.referralCode, u.donationsRaised, u.joiningDate)
  }

  /** The response to a successful signup (201) or login (200). */
  function SessionFor(status: nat, message: string, u: User): (r: Response)
    ensures r.status == status && r.body.Session? && r.body.message == message
    ensures r.body.token.userId == u.id && r.body.token.email == u.email
    ensures r.body.user == PublicView(u)
  {
    Response(status, Session(message, Claims(u.id, u.email), PublicView(u)))
  }

  predicate CodeTaken(users: seq<User>, code: string) {
    exists k :: 0 <= k < |users| && users[k].referralCode == code
  }

  /** The five demo accounts: name, email and donation total. */
  const DemoAccounts: seq<(string, string, int)> := [
    ("Akshad Pastambh", "akshad@example.com", 5000),
    ("John Doe", "john@example.com", 3500),
    ("Alice Smith", "alice@example.com", 2800),
    ("Bob Johnson", "bob@example.com", 1500),
    ("Emma Wilson", "emma@example.com", 900)
  ]

  /** The demo documents as the seed route builds them: no referral code set. */
  function DemoDocs(firstId: nat, hashes: seq<string>, now: int): (docs: seq<User>)
    requires |hashes| == |DemoAccounts|
    ensures |docs| == |DemoAccounts|
    ensures forall k :: 0 <= k < |docs| ==> docs[k].referralCode == "" && docs[k].id == firstId + k
  {
    seq(|DemoAccounts|, k requires 0 <= k < |DemoAccounts| =>
      User(firstId + k, DemoAccounts[k].0, DemoAccounts[k].1, hashes[k], "", DemoAccounts[k].2, now))
  }

  /** The demo documents with the referral-code rule applied, as `doc.save()` would store them. */
  function CodedDemoDocs(firstId: nat, hashes: seq<string>, now: int): (docs: seq<User>)
    requires |hashes| == |DemoAccounts|
    ensures |docs| == |DemoAccounts|
    ensures forall k :: 0 <= k < |docs| ==> docs[k] == AssignReferralCode(DemoDocs(firstId, hashes, now)[k])
  {
    var raw := DemoDocs(firstId, hashes, now);
    seq(|raw|, k requires 0 <= k < |raw| => AssignReferralCode(raw[k]))
  }

  /** The seed route as written: `insertMany` stores the demo documents without
      running the pre-save hook. */
  function SeedAsWritten(users: seq<User>, firstId: nat, hashes: seq<string>, now: int): (r: (Response, seq<User>))
    requires |hashes| == |DemoAccounts|
    ensures |users| > 0 ==> r == (DemoExists, users)
    ensures |users| == 0 ==> r.0 in {DemoCreated, ServerError}
  {
    if |users| > 0 then (DemoExists, users)
    else
      var out := InsertMany(users, DemoDocs(firstId, hashes, now));
      if out.failure.Some? then (ServerError, out.users) else (DemoCreated, out.users)
  }

  /** On an empty collection the seed route as written stores the first demo
      user without a referral code, then the unique index on referralCode
      refuses the second (a second missing code), and the route answers 500. */
  lemma SeedAsWrittenFailsOnEmptyStore(firstId: nat, hashes: seq<string>, now: int)
    requires |hashes| == |DemoAccounts| && forall k :: 0 <= k < |hashes| ==> hashes[k] != ""
    ensures SeedAsWritten([], firstId, hashes, now).0 == ServerError
    ensures |SeedAsWritten([], firstId, hashes, now).1| == 1
    ensures SeedAsWritten([], firstId, hashes, now).1[0].referralCode == ""
  {
    var docs := DemoDocs(firstId, hashes, now);
    assert forall k :: 0 <= k < |docs| ==> HasRequiredFields(docs[k]);
    var rest := docs[1..];
    assert rest != [] && rest[0] == docs[1];
    assert SharesKey([docs[0]][0], rest[0]);
    assert InsertInOrder([docs[0]], rest) == InsertOutcome([docs[0]], Some(DuplicateKey));
    assert !(exists k :: 0 <= k < |docs| && !HasRequiredFields(docs[k]));
    assert InsertInOrder([], docs) == InsertInOrder([] + [docs[0]], rest);
    assert [] + [docs[0]] == [docs[0]];
  }

  /** The first two letters of each demo account's referral code. */
  const DemoLeads: seq<string> := ["ak", "jo", "al", "bo", "em"]

  lemma DemoLead0()
    ensures |CodeFor(DemoAccounts[0].0)| >= 2 && CodeFor(DemoAccounts[0].0)[..2] == DemoLeads[0]
  {
    var n := DemoAccounts[0].0;
    assert n[0] == 'A' && n[1] == 'k';
    CodeLeadingLetters(n);
    assert ToLower('A') == 'a';
  }

  lemma DemoLead1()
    ensures |CodeFor(DemoAccounts[1].0)| >= 2 && CodeFor(DemoAccounts[1].0)[..2] == DemoLeads[1]
  {
    var n := DemoAccounts[1].0;
    assert n[0] == 'J' && n[1] == 'o';
    CodeLeadingLetters(n);
    assert ToLower('J') == 'j';
  }

  lemma DemoLead2()
    ensures |CodeFor(DemoAccounts[2].0)| >= 2 && CodeFor(DemoAccounts[2].0)[..2] == DemoLeads[2]
  {
    var n := DemoAccounts[2].0;
    assert n[0] == 'A' && n[1] == 'l';
    CodeLeadingLetters(n);
    assert ToLower('A') == 'a';
  }

  lemma DemoLead3()
    ensures |CodeFor(DemoAccounts[3].0)| >= 2 && CodeFor(DemoAccounts[3].0)[..2] == DemoLeads[3]
  {
    var n := DemoAccounts[3].0;
    assert n[0] == 'B' && n[1] == 'o';
    CodeLeadingLetters(n);
    assert ToLower('B') == 'b';
  }

  lemma DemoLead4()
    ensures |CodeFor(DemoAccounts[4].0)| >= 2 && CodeFor(DemoAccounts[4].0)[..2] == DemoLeads[4]
  {
    var n := DemoAccounts[4].0;
    assert n[0] == 'E' && n[1] == 'm';
    CodeLeadingLetters(n);
    assert ToLower('E') == 'e';
  }

  lemma DemoLeadsDistinct()
    ensures forall a, b :: 0 <= a < b < |DemoLeads| ==> DemoLeads[a] != DemoLeads[b]
  {
  }

  lemma DemoCodeLeads()
    ensures forall k :: 0 <= k < |DemoAccounts| ==>
      |CodeFor(DemoAccounts[k].0)| >= 2 && CodeFor(DemoAccounts[k].0)[..2] == DemoLeads[k]
  {
    forall k | 0 <= k < |DemoAccounts|
      ensures |CodeFor(DemoAccounts[k].0)| >= 2 && CodeFor(DemoAccounts[k].0)[..2] == DemoLeads[k]
    {
      if k == 0 { DemoLead0(); }
      else if k == 1 { DemoLead1(); }
      else if k == 2 { DemoLead2(); }
      else if k == 3 { DemoLead3(); }
      else { DemoLead4(); }
    }
  }

  /** Accounts whose codes start with pairwise different two-letter leads get
      pairwise different codes. */
  lemma DistinctByLeads(accounts: seq<(string, string, int)>, leads: seq<string>)
    requires |accounts| == |leads|
    requires forall k :: 0 <= k < |accounts| ==>
      |CodeFor(accounts[k].0)| >= 2 && CodeFor(accounts[k].0)[..2] == leads[k]
    requires forall a, b :: 0 <= a < b < |leads| ==> leads[a] != leads[b]
    ensures forall a, b :: 0 <= a < b < |accounts| ==> CodeFor(accounts[a].0) != CodeFor(accounts[b].0)
  {
  }

  /** The demo accounts get five different referral codes: they already
      differ in their first two letters. */
  lemma DemoCodesDistinct()
    ensures forall a, b :: 0 <= a < b < |DemoAccounts| ==>
      CodeFor(DemoAccounts[a].0) != CodeFor(DemoAccounts[b].0)
  {
    DemoCodeLeads();
    DemoLeadsDistinct();
    DistinctByLeads(DemoAccounts, DemoLeads);
  }

  /** The demo e-mail addresses start with the same two letters as the codes. */
  lemma DemoEmailLeads()
    ensures forall k :: 0 <= k < |DemoAccounts| ==>
      |DemoAccounts[k].1| >= 2 && DemoAccounts[k].1[..2] == DemoLeads[k]
  {
  }

  /** The demo accounts have five different e-mail addresses. */
  lemma DemoEmailsDistinct()
    ensures forall a, b :: 0 <= a < b < |DemoAccounts| ==> DemoAccounts[a].1 != DemoAccounts[b].1
  {
    DemoEmailLeads();
    DemoLeadsDistinct();
  }

  /** With the pre-save rule applied, the five demo documents share no unique
      key, so `insertMany` on an empty collection stores all five. */
  lemma CorrectedSeedSucceeds(firstId: nat, hashes: seq<string>, now: int)
    requires |hashes| == |DemoAccounts| && forall k :: 0 <= k < |hashes| ==> hashes[k] != ""
    ensures InsertMany([], CodedDemoDocs(firstId, hashes, now)) == InsertOutcome(CodedDemoDocs(firstId, hashes, now), None)
  {
    var docs := CodedDemoDocs(firstId, hashes, now);
    var raw := DemoDocs(firstId, hashes, now);
    DemoCodesDistinct();
    DemoEmailsDistinct();
    DemoEmailLeads();
    forall k | 0 <= k < |docs|
      ensures HasRequiredFields(docs[k]) && docs[k].id == firstId + k
      ensures docs[k].email == DemoAccounts[k].1 && docs[k].referralCode == CodeFor(DemoAccounts[k].0)
    {
      assert docs[k] == AssignReferralCode(raw[k]);
      assert raw[k].name == DemoAccounts[k].0 && raw[k].email == DemoAccounts[k].1;
      assert |DemoAccounts[k].0| >= 2 by { DemoCodeLeads(); }
    }
    InsertManyDistinct([], docs);
    assert [] + docs == docs;
  }

  /** The collection after `amount` is added to the donation total of record `i`. */
  function Credit(users: seq<User>, i: nat, amount: int): (r: seq<User>)
    requires i < |users|
    ensures |r| == |users|
    ensures r[i].donationsRaised == users[i].donationsRaised + amount
    ensures r[i].(donationsRaised := users[i].donationsRaised) == users[i]
    ensures forall k :: 0 <= k < |users| && k != i ==> r[k] == users[k]
  {
    users[i := users[i].(donationsRaised := users[i].donationsRaised + amount)]
  }

  /** The users collection behind the routes. `nextId` stands for the
      ObjectId Mongoose draws for a new document: always fresh. */
  class UserStore {
    var users: seq<User>
    var nextId: nat

    /** Every stored record passed validation and carries a referral code,
        no two records share a unique key, and every id is below the next one. */
    ghost predicate Valid()
      reads this
    {
      && Unique(users)
      && forall k :: 0 <= k < |users| ==>
           users[k].id < nextId && HasRequiredFields(users[k]) && users[k].referralCode != ""
    }

    constructor ()
      ensures Valid() && users == [] && nextId == 0
    {
      users := [];
      nextId := 0;
    }

    /** `POST /api/signup`: refuse a known e-mail, otherwise save a new record
        whose code the pre-save hook derives from the name. `hash` is the
        bcrypt hash of the password and `initial` the random demo amount. */
    method Signup(name: string, email: string, hash: string, initial: nat, now: int) returns (resp: Response)
      requires Valid() && initial < 5000
      modifies this
      ensures Valid()
      ensures FindByEmail(old(users), email).Some? ==>
        resp == UserExists && users == old(users) && nextId == old(nextId)
      ensures (FindByEmail(old(users), email).None? &&
        (name == "" || email == "" || hash == "" || CodeTaken(old(users), CodeFor(name)))) ==>
        resp == ServerError && users == old(users) && nextId == old(nextId)
      ensures (FindByEmail(old(users), email).None? &&
        name != "" && email != "" && hash != "" && !CodeTaken(old(users), CodeFor(name))) ==>
        var u := User(old(nextId), name, email, hash, CodeFor(name), initial, now);
        && users == old(users) + [u]
        && nextId == old(nextId) + 1
        && resp == SessionFor(201, "User created successfully", u)
        && FindByEmail(users, email) == Some(u)
    {
      if FindByEmail(users, email).Some? {
        resp := UserExists;
        return;
      }
      var doc := User(nextId, name, email, hash, "", initial, now);
      var d := AssignReferralCode(doc);
      assert forall j :: 0 <= j < |users| ==> users[j].id != d.id;
      assert (exists j :: 0 <= j < |users| && Clashes(users[j], d)) <==> CodeTaken(users, CodeFor(name));
      match Save(users, doc)
      case Rejected(_) =>
        resp := ServerError;
      case Stored(s) =>
        assert IndexOfId(users, d.id).None?;
        users := s;
        nextId := nextId + 1;
        resp := SessionFor(201, "User created successfully", d);
    }

    /** `POST /api/login`: `compare` stands for `bcrypt.compare`. */
    method Login(email: string, password: string, compare: (string, string) -> bool) returns (resp: Response)
      ensures FindByEmail(users, email).None? ==> resp == InvalidCredentials
      ensures FindByEmail(users, email).Some? && !compare(password, FindByEmail(users, email).value.passwordHash) ==>
        resp == InvalidCredentials
      ensures FindByEmail(users, email).Some? && compare(password, FindByEmail(users, email).value.passwordHash) ==>
        resp == SessionFor(200, "Login successful", FindByEmail(users, email).value)
      ensures resp.status == 200 <==>
        FindByEmail(users, email).Some? && compare(password, FindByEmail(users, email).value.passwordHash)
    {
      match FindByEmail(users, email)
      case None =>
        resp := InvalidCredentials;
      case Some(u) =>
        if !compare(password, u.passwordHash) {
          resp := InvalidCredentials;
        } else {
          resp := SessionFor(200, "Login successful", u);
        }
    }

    /** `GET /api/dashboard`: the profile of the user the token names. */
    method Dashboard(header: Option<string>, verify: string -> Option<Claims>) returns (resp: Response)
      ensures Authenticate(header, verify).Denied? ==> resp == Deny(Authenticate(header, verify).denial)
      ensures Authenticate(header, verify).Passed? ==>
        var id := Authenticate(header, verify).claims.userId;
        && (FindById(users, id).None? ==> resp == UserNotFound)
        && (FindById(users, id).Some? ==> resp == Response(200, Profile(DashboardOf(FindById(users, id).value))))
      ensures resp.status == 200 ==>
        resp.body.Profile? && exists k :: 0 <= k < |users| && resp.body.view == DashboardOf(users[k])
    {
      match Authenticate(header, verify)
      case Denied(d) =>
        resp := Deny(d);
      case Passed(c) =>
        match FindById(users, c.userId)
        case None =>
          resp := UserNotFound;
        case Some(u) =>
          resp := Response(200, Profile(DashboardOf(u)));
    }

    /** `GET /api/leaderboard`: the `Limit` records with the most donations,
        ranked from 1. Records with equal totals may come in any order. */
    method Leaderboard(header: Option<string>, verify: string -> Option<Claims>) returns (resp: Response)
      ensures Authenticate(header, verify).Denied? ==> resp == Deny(Authenticate(header, verify).denial)
      ensures Authenticate(header, verify).Passed? ==>
        resp.status == 200 && resp.body.Board? &&
        exists sel :: IsTopSelection(users, sel, Limit) && resp.body.entries == Rank(sel)
    {
      match Authenticate(header, verify)
      case Denied(d) =>
        resp := Deny(d);
      case Passed(_) =>
        var sel := TopByDonations(users, Limit);
        TopIsTopSelection(users, Limit);
        resp := Response(200, Board(Rank(sel)));
    }

    /** `PUT /api/donations`: add `amount` to the total of the user the token
        names and save the record again. */
    method UpdateDonations(header: Option<string>, verify: string -> Option<Claims>, amount: int) returns (resp: Response)
      requires Valid()
      modifies this
      ensures Valid() && nextId == old(nextId)
      ensures Authenticate(header, verify).Denied? ==>
        resp == Deny(Authenticate(header, verify).denial) && users == old(users)
      ensures Authenticate(header, verify).Passed? && IndexOfId(old(users), Authenticate(header, verify).claims.userId).None? ==>
        resp == UserNotFound && users == old(users)
      ensures Authenticate(header, verify).Passed? && IndexOfId(old(users), Authenticate(header, verify).claims.userId).Some? ==>
        var i := IndexOfId(old(users), Authenticate(header, verify).claims.userId).value;
        && users == Credit(old(users), i, amount)
        && resp == Response(200, Total("Donation amount updated", users[i].donationsRaised))
    {
      var gate := Authenticate(header, verify);
      if gate.Denied? {
        resp := Deny(gate.denial);
        return;
      }
      var found := IndexOfId(users, gate.claims.userId);
      if found.None? {
        resp := UserNotFound;
        return;
      }
      var i := found.value;
      var u := users[i];
      var updated := u.(donationsRaised := u.donationsRaised + amount);
      ResaveReplaces(users, i, updated);
      assert updated == Credit(users, i, amount)[i];
      var saved := Save(users, updated);
      users := saved.users;
      resp := Response(200, Total("Donation amount updated", updated.donationsRaised));
    }

    /** `POST /api/seed` with the pre-save rule applied to the demo documents:
        on an empty collection all five demo users are stored. `hashes` are
        the bcrypt hashes of their password. */
    method Seed(hashes: seq<string>, now: int) returns (resp: Response)
      requires Valid()
      requires |hashes| == |DemoAccounts| && forall k :: 0 <= k < |hashes| ==> hashes[k] != ""
      modifies this
      ensures Valid()
      ensures |old(users)| > 0 ==> resp == DemoExists && users == old(users) && nextId == old(nextId)
      ensures |old(users)| == 0 ==>
        && resp == DemoCreated
        && users == CodedDemoDocs(old(nextId), hashes, now)
        && nextId == old(nextId) + |DemoAccounts|
    {
      if |users| > 0 {
        resp := DemoExists;
        return;
      }
      var docs := CodedDemoDocs(nextId, hashes, now);
      CorrectedSeedSucceeds(nextId, hashes, now);
      var out := InsertMany(users, docs);
      forall k | 0 <= k < |docs|
        ensures docs[k].id < nextId + |DemoAccounts| && HasRequiredFields(docs[k])
        ensures docs[k].referralCode != ""
      {
        var raw := DemoDocs(nextId, hashes, now);
        assert docs[k] == AssignReferralCode(raw[k]);
      }
      users := out.users;
      nextId := nextId + |DemoAccounts|;
      resp := DemoCreated;
    }
  }
}
