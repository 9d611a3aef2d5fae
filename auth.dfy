/** The account handlers of controllers/authController.js on an in-memory user
    collection: registerUser, activateUser, loginUser, refresh, updateUser and
    deleteUser. Activation links (uuid), bcrypt, the token functions of the
    token controller and mail are parameters. */
module Auth {
  import opened Common
  import opened Users

  /** User.findOne({ email }); the query value goes through the e-mail setters. */
  function FindByEmail(users: seq<User>, email: string): (r: Option<nat>)
    ensures r.None? <==> forall k :: 0 <= k < |users| ==> users[k].email != NormaliseEmail(email)
    ensures r.Some? ==> r.value < |users| && users[r.value].email == NormaliseEmail(email)
  {
    FirstWhere(users, (u: User) => u.email == NormaliseEmail(email))
  }

  function FindById(users: seq<User>, id: UserId): (r: Option<nat>)
    ensures r.None? <==> forall k :: 0 <= k < |users| ==> users[k].id != id
    ensures r.Some? ==> r.value < |users| && users[r.value].id == id
  {
    FirstWhere(users, (u: User) => u.id == id)
  }

  function FindByLink(users: seq<User>, link: string): (r: Option<nat>)
    ensures r.None? <==> forall k :: 0 <= k < |users| ==> users[k].activationLink != Some(link)
    ensures r.Some? ==> r.value < |users| && users[r.value].activationLink == Some(link)
  {
    FirstWhere(users, (u: User) => u.activationLink == Some(link))
  }

  /** No two elements share a key. */
  predicate DistinctOn<T, K(==)>(s: seq<T>, key: T -> K) {
    forall i, j :: 0 <= i < j < |s| ==> key(s[i]) != key(s[j])
  }

  lemma DistinctOnRemove<T, K>(s: seq<T>, key: T -> K, i: nat)
    requires DistinctOn(s, key) && i < |s|
    ensures DistinctOn(s[..i] + s[i + 1..], key)
  {
    var rest := s[..i] + s[i + 1..];
    forall a, c | 0 <= a < c < |rest| ensures key(rest[a]) != key(rest[c]) {
      var a' := if a < i then a else a + 1;
      var c' := if c < i then c else c + 1;
      assert rest[a] == s[a'] && rest[c] == s[c'];
    }
  }

  lemma DistinctOnUpdate<T, K>(s: seq<T>, key: T -> K, i: nat, x: T)
    requires DistinctOn(s, key) && i < |s|
    requires forall k :: 0 <= k < |s| && k != i ==> key(s[k]) != key(x)
    ensures DistinctOn(s[i := x], key)
  {
  }

  lemma DistinctOnAppend<T, K>(s: seq<T>, key: T -> K, x: T)
    requires DistinctOn(s, key)
    requires forall k :: 0 <= k < |s| ==> key(s[k]) != key(x)
    ensures DistinctOn(s + [x], key)
  {
  }

  function EmailOf(u: User): string { u.email }

  function IdOf(u: User): UserId { u.id }

  /** The unique index on email. */
  predicate UniqueEmails(users: seq<User>) {
    DistinctOn(users, EmailOf)
  }

  predicate UniqueIds(users: seq<User>) {
    DistinctOn(users, IdOf)
  }

  /** No user other than the one at `i` has the e-mail. */
  predicate EmailFreeExcept(users: seq<User>, i: nat, email: string) {
    forall k :: 0 <= k < |users| && k != i ==> users[k].email != email
  }

  /** The user document updateUser holds before `save`: a field overwrites the
      stored one only when the body's value is truthy, through the setters of
      the schema; the password is still the plain text. */
  function Draft(u: User, name: Option<string>, email: Option<string>, password: Option<string>): (r: User)
    ensures r.id == u.id && r.role == u.role && r.isActivated == u.isActivated && r.activationLink == u.activationLink
    ensures r.name == if Truthy(name) then Trim(name.value) else u.name
    ensures r.email == if Truthy(email) then NormaliseEmail(email.value) else u.email
    ensures r.password == if Truthy(password) then password.value else u.password
  {
    u.(name := if Truthy(name) then Trim(name.value) else u.name,
       email := if Truthy(email) then NormaliseEmail(email.value) else u.email,
       password := if Truthy(password) then password.value else u.password)
  }

  /** Whether `user.password = password` marks the password modified: the
      body's value is truthy and differs from the stored hash. */
  predicate PasswordChanged(u: User, password: Option<string>) {
    Truthy(password) && password.value != u.password
  }

  /** The stored user after a successful updateUser: the draft, with the
      password re-hashed by the pre-save hook only if the assignment changed
      it; a body password equal to the stored hash leaves the hash as it was. */
  function Patched(u: User, name: Option<string>, email: Option<string>, password: Option<string>, hash: string -> string): (r: User)
    ensures r.id == u.id && r.role == u.role && r.isActivated == u.isActivated && r.activationLink == u.activationLink
    ensures r.name == if Truthy(name) then Trim(name.value) else u.name
    ensures r.email == if Truthy(email) then NormaliseEmail(email.value) else u.email
    ensures PasswordChanged(u, password) ==> MatchPassword(r, hash, password.value)
    ensures !PasswordChanged(u, password) ==> r.password == u.password
    ensures !PasswordChanged(u, password) ==> forall p :: MatchPassword(r, hash, p) == MatchPassword(u, hash, p)
  {
    var d := Draft(u, name, email, password);
    d.(password := if PasswordChanged(u, password) then hash(password.value) else u.password)
  }

  /** Invariant of the user collection: every user passed validation, ids and
      e-mails are unique, and ids come from a counter. */
  ghost predicate StoreInvariant(users: seq<User>, nextId: UserId) {
    && (forall k :: 0 <= k < |users| ==> users[k].id < nextId)
    && Every(users, ValidUser)
    && UniqueIds(users)
    && UniqueEmails(users)
  }

  /** Every element satisfies `p`; stated by recursion so that the validity
      of one stored user is only looked at when a proof asks for it. */
  predicate Every<T>(s: seq<T>, p: T -> bool) {
    s == [] || (Every(s[..|s| - 1], p) && p(s[|s| - 1]))
  }

  lemma {:induction false} EveryAt<T>(s: seq<T>, p: T -> bool, k: nat)
    requires Every(s, p) && k < |s|
    ensures p(s[k])
    decreases |s|
  {
    if k < |s| - 1 {
      EveryAt(s[..|s| - 1], p, k);
    }
  }

  lemma {:induction false} EveryIntro<T>(s: seq<T>, p: T -> bool)
    requires forall k :: 0 <= k < |s| ==> p(s[k])
    ensures Every(s, p)
    decreases |s|
  {
    if s != [] {
      EveryIntro(s[..|s| - 1], p);
    }
  }

  lemma EveryAppend<T>(s: seq<T>, p: T -> bool, x: T)
    requires Every(s, p) && p(x)
    ensures Every(s + [x], p)
  {
    assert (s + [x])[..|s|] == s;
  }

  lemma EveryUpdate<T>(s: seq<T>, p: T -> bool, i: nat, x: T)
    requires Every(s, p) && i < |s| && p(x)
    ensures Every(s[i := x], p)
  {
    var t := s[i := x];
    forall k | 0 <= k < |t| ensures p(t[k]) {
      if k != i {
        EveryAt(s, p, k);
      }
    }
    EveryIntro(t, p);
  }

  lemma EveryRemove<T>(s: seq<T>, p: T -> bool, i: nat)
    requires Every(s, p) && i < |s|
    ensures Every(s[..i] + s[i + 1..], p)
  {
    var rest := s[..i] + s[i + 1..];
    forall a | 0 <= a < |rest| ensures p(rest[a]) {
      var b := if a < i then a else a + 1;
      assert rest[a] == s[b];
      EveryAt(s, p, b);
    }
    EveryIntro(rest, p);
  }

  lemma RemovePreserves(users: seq<User>, i: nat, nextId: UserId)
    requires i < |users| && StoreInvariant(users, nextId)
    ensures StoreInvariant(users[..i] + users[i + 1..], nextId)
  {
    var rest := users[..i] + users[i + 1..];
    EveryRemove(users, ValidUser, i);
    DistinctOnRemove(users, IdOf, i);
    DistinctOnRemove(users, EmailOf, i);
    forall a | 0 <= a < |rest|
      ensures rest[a].id < nextId
    {
      var b := if a < i then a else a + 1;
      assert rest[a] == users[b];
    }
  }

  /** A stored user passed validation and no other user has its e-mail. */
  lemma StoredUser(users: seq<User>, nextId: UserId, i: nat)
    requires StoreInvariant(users, nextId) && i < |users|
    ensures ValidUser(users[i]) && EmailFreeExcept(users, i, users[i].email)
  {
    EveryAt(users, ValidUser, i);
    forall k | 0 <= k < |users| && k != i ensures users[k].email != users[i].email {
      if k < i {
        assert EmailOf(users[k]) != EmailOf(users[i]);
      } else {
        assert EmailOf(users[i]) != EmailOf(users[k]);
      }
    }
  }

  /** Adding a valid user with a fresh id and an unused e-mail keeps the invariant. */
  lemma AppendPreserves(users: seq<User>, nextId: UserId, u: User)
    requires StoreInvariant(users, nextId)
    requires u.id == nextId && ValidUser(u)
    requires forall k :: 0 <= k < |users| ==> users[k].email != u.email
    ensures StoreInvariant(users + [u], nextId + 1)
  {
    EveryAppend(users, ValidUser, u);
    assert forall k :: 0 <= k < |users| ==> IdOf(users[k]) != IdOf(u);
    DistinctOnAppend(users, IdOf, u);
    assert forall k :: 0 <= k < |users| ==> EmailOf(users[k]) != EmailOf(u);
    DistinctOnAppend(users, EmailOf, u);
    var t := users + [u];
    assert forall k :: 0 <= k < |t| ==> t[k].id < nextId + 1 by {
      forall k | 0 <= k < |t| ensures t[k].id < nextId + 1 {
        if k < |users| { assert t[k] == users[k]; }
      }
    }
  }

  /** Replacing a user by a valid one with the same id and an e-mail no other
      user has keeps the invariant. */
  lemma ReplacePreserves(users: seq<User>, nextId: UserId, i: nat, u: User)
    requires StoreInvariant(users, nextId) && i < |users|
    requires u.id == users[i].id && ValidUser(u) && EmailFreeExcept(users, i, u.email)
    ensures StoreInvariant(users[i := u], nextId)
  {
    EveryUpdate(users, ValidUser, i, u);
    forall k | 0 <= k < |users| && k != i ensures IdOf(users[k]) != IdOf(u) {
      if k < i {
        assert IdOf(users[k]) != IdOf(users[i]);
      } else {
        assert IdOf(users[i]) != IdOf(users[k]);
      }
    }
    DistinctOnUpdate(users, IdOf, i, u);
    DistinctOnUpdate(users, EmailOf, i, u);
  }

  datatype LoginResult = LoginResult(status: nat, user: Option<User>)

  /** loginUser. A body rejected by the route's validators answers 400; an
      unknown e-mail or a wrong password answers 401, checked before the
      activation, so a wrong password on an inactive account is still 401; a
      matching but inactive account answers 400; otherwise 201 with the user.
      Issuing and saving tokens is left to the token functions. */
  function Login(users: seq<User>, bodyValid: bool, email: string, password: string, hash: string -> string): (r: LoginResult)
    requires UniqueEmails(users)
    ensures r.status == 201 <==>
      && bodyValid
      && exists i :: 0 <= i < |users| && users[i].email == NormaliseEmail(email)
                     && MatchPassword(users[i], hash, password) && users[i].isActivated
    ensures r.status == 401 <==>
      && bodyValid
      && forall i :: 0 <= i < |users| && users[i].email == NormaliseEmail(email) ==> !MatchPassword(users[i], hash, password)
    ensures r.status == 400 <==>
      || !bodyValid
      || exists i :: 0 <= i < |users| && users[i].email == NormaliseEmail(email)
                     && MatchPassword(users[i], hash, password) && !users[i].isActivated
    ensures r.status == 201 ==> r.user.Some? && r.user.value in users && r.user.value.email == NormaliseEmail(email)
    ensures r.status != 201 ==> r.user.None?
  {
    if !bodyValid then LoginResult(400, None)
    else
      match FindByEmail(users, email)
      case None => LoginResult(401, None)
      case Some(i) =>
        assert forall k :: 0 <= k < |users| && users[k].email == NormaliseEmail(email) ==> k == i;
        if !MatchPassword(users[i], hash, password) then LoginResult(401, None)
        else if !users[i].isActivated then LoginResult(400, None)
        else LoginResult(201, Some(users[i]))
  }

  /** A stored user who types the right password gets in exactly when the
      account is activated; otherwise the answer is 400. */
  lemma LoginKnownUser(users: seq<User>, i: nat, email: string, password: string, hash: string -> string)
    requires UniqueEmails(users) && i < |users|
    requires users[i].email == NormaliseEmail(email) && MatchPassword(users[i], hash, password)
    ensures Login(users, true, email, password, hash).status == if users[i].isActivated then 201 else 400
  {
  }

  /** Register, activate, log in: right after a registration, logging in with
      the e-mail string and password used to register answers 400; once the fresh activation link has been used it
      answers 201. */
  lemma LoginAfterRegister(users: seq<User>, nextId: UserId, name: string, email: string, password: string,
                           link: string, hash: string -> string)
    requires StoreInvariant(users, nextId)
    requires FindByEmail(users, email).None? && FindByLink(users, link).None?
    ensures var u := User(nextId, Trim(name), NormaliseEmail(email), hash(password), UserRole, false, Some(link));
      var registered := users + [u];
      && UniqueEmails(registered)
      && Login(registered, true, email, password, hash).status == 400
      && FindByLink(registered, link) == Some(|users|)
      && UniqueEmails(registered[|users| := u.(isActivated := true)])
      && Login(registered[|users| := u.(isActivated := true)], true, email, password, hash).status == 201
  {
    var u := User(nextId, Trim(name), NormaliseEmail(email), hash(password), UserRole, false, Some(link));
    var registered := users + [u];
    var activated := registered[|users| := u.(isActivated := true)];
    DistinctOnAppend(users, EmailOf, u);
    LoginKnownUser(registered, |users|, email, password, hash);
    assert activated == users + [u.(isActivated := true)];
    DistinctOnAppend(users, EmailOf, u.(isActivated := true));
    LoginKnownUser(activated, |users|, email, password, hash);
    LinkOfLast(users, u, link);
  }

  lemma LinkOfLast(users: seq<User>, u: User, link: string)
    requires FindByLink(users, link).None? && u.activationLink == Some(link)
    ensures FindByLink(users + [u], link) == Some(|users|)
  {
    assert (users + [u])[|users|] == u;
  }

  /** Outcome of `refresh`; refreshUser answers both failures with 500. */
  datatype RefreshResult = Refreshed(user: User) | Unauthorized | UserMissing

  /** refresh: the cookie must be present and non-empty, the token must verify
      (`verify` stands for validateRefreshToken) and be in the token store
      `stored`; then the user is looked up by the id the token carries. */
  function Refresh(users: seq<User>, token: Option<string>, verify: string -> Option<UserId>, stored: set<string>): (r: RefreshResult)
    ensures r.Unauthorized? <==> !Truthy(token) || verify(token.value).None? || token.value !in stored
    ensures r.Refreshed? ==> && Truthy(token) && token.value in stored
                             && verify(token.value) == Some(r.user.id) && r.user in users
    ensures r.UserMissing? ==> Truthy(token) && verify(token.value).Some?
                               && forall u :: u in users ==> u.id != verify(token.value).value
  {
    if !Truthy(token) then Unauthorized
    else
      var data := verify(token.value);
      if data.None? || token.value !in stored then Unauthorized
      else
        match FindById(users, data.value)
        case None => UserMissing
        case Some(i) => Refreshed(users[i])
  }

  /** The assignments of updateUser: `if (name) user.name = name`, and the
      same for email and password. */
  method AssignTruthy(doc: UserDocument, name: Option<string>, email: Option<string>, password: Option<string>)
    modifies doc
    ensures doc.Snapshot() == Draft(old(doc.Snapshot()), name, email, password)
    ensures doc.passwordModified == (old(doc.passwordModified) || PasswordChanged(old(doc.Snapshot()), password))
  {
    ghost var draft := Draft(doc.Snapshot(), name, email, password);
    if Truthy(name) {
      doc.SetName(name.value);
    }
    if Truthy(email) {
      doc.SetEmail(email.value);
    }
    assert doc.Snapshot() == draft.(password := old(doc.password));
    if Truthy(password) {
      doc.SetPassword(password.value);
    }
  }

  class UserStore {
    var users: seq<User>
    var nextId: UserId

    ghost predicate Valid()
      reads this
    {
      StoreInvariant(users, nextId)
    }

    constructor ()
      ensures Valid() && users == []
    {
      users := [];
      nextId := 0;
    }

    /** registerUser. `bodyValid` is the verdict of the route's validators;
        `link` is the fresh uuid. A known e-mail answers 400 and adds no one; a
        document the schema rejects makes `save` throw, answered with 500;
        otherwise one inactive user with the activation link is added and the
        answer is 200. Mail and token issuing are not modelled. */
    method Register(bodyValid: bool, name: string, email: string, password: string, link: string, hash: string -> string)
      returns (status: nat)
      requires Valid()
      modifies this
      ensures Valid()
      ensures status == 400 <==> !bodyValid || FindByEmail(old(users), email).Some?
      ensures status == 200 <==>
        && bodyValid
        && FindByEmail(old(users), email).None?
        && Saveable(User(old(nextId), Trim(name), NormaliseEmail(email), password, UserRole, false, Some(link)), true)
      ensures status == 200 ==>
        users == old(users) + [User(old(nextId), Trim(name), NormaliseEmail(email), hash(password), UserRole, false, Some(link))]
      ensures status != 200 ==> users == old(users) && (status == 400 || status == 500)
    {
      if !bodyValid {
        return 400;
      }
      if FindByEmail(users, email).Some? {
        return 400;
      }
      var doc := new UserDocument.Create(nextId, name, email, password, Some(link));
      if !Saveable(doc.Snapshot(), doc.passwordModified) {
        return 500;
      }
      doc.PreSave(hash);
      var u := doc.Snapshot();
      AppendPreserves(users, nextId, u);
      users := users + [u];
      nextId := nextId + 1;
      status := 200;
    }

    /** activateUser: a link no user holds answers 400 and changes nothing;
        otherwise that user's isActivated becomes true (the save keeps the
        password hash, which was not modified) and the answer is a redirect. */
    method Activate(link: string, hash: string -> string) returns (status: nat)
      requires Valid()
      modifies this
      ensures Valid() && nextId == old(nextId)
      ensures FindByLink(old(users), link).None? ==> status == 400 && users == old(users)
      ensures FindByLink(old(users), link).Some? ==>
        var i := FindByLink(old(users), link).value;
        && status == 302
        && users == old(users)[i := old(users)[i].(isActivated := true)]
    {
      var found := FindByLink(users, link);
      if found.None? {
        return 400;
      }
      var i := found.value;
      var doc := new UserDocument.Load(users[i]);
      doc.SetActivated();
      StoredUser(users, nextId, i);
      assert Saveable(doc.Snapshot(), doc.passwordModified);
      doc.PreSave(hash);
      ReplacePreserves(users, nextId, i, doc.Snapshot());
      users := users[i := doc.Snapshot()];
      status := 302;
    }

    /** updateUser: an unknown user answers 404; a document the validators or
        the unique e-mail index reject answers 500 and changes nothing;
        otherwise the user becomes Patched(...) and the answer is 200. */
    method UpdateUser(userId: UserId, name: Option<string>, email: Option<string>, password: Option<string>, hash: string -> string)
      returns (status: nat)
      requires Valid()
      modifies this
      ensures Valid() && nextId == old(nextId)
      ensures status == 404 <==> FindById(old(users), userId).None?
      ensures status == 404 ==> users == old(users)
      ensures FindById(old(users), userId).Some? ==>
        var i := FindById(old(users), userId).value;
        var draft := Draft(old(users)[i], name, email, password);
        && (status == 200 <==> Saveable(draft, PasswordChanged(old(users)[i], password)) && EmailFreeExcept(old(users), i, draft.email))
        && (status == 200 ==> users == old(users)[i := Patched(old(users)[i], name, email, password, hash)])
        && (status != 200 ==> status == 500 && users == old(users))
    {
      var found := FindById(users, userId);
      if found.None? {
        return 404;
      }
      var i := found.value;
      var doc := new UserDocument.Load(users[i]);
      AssignTruthy(doc, name, email, password);
      if !Saveable(doc.Snapshot(), doc.passwordModified) || !EmailFreeExcept(users, i, doc.email) {
        return 500;
      }
      doc.PreSave(hash);
      assert doc.Snapshot() == Patched(users[i], name, email, password, hash);
      ReplacePreserves(users, nextId, i, doc.Snapshot());
      users := users[i := doc.Snapshot()];
      status := 200;
    }

    /** deleteUser: removes the user record only (transactions and budgets
        live in other collections and are not touched); an unknown user
        answers 404. */
    method DeleteUser(userId: UserId) returns (status: nat)
      requires Valid()
      modifies this
      ensures Valid() && nextId == old(nextId)
      ensures status == 404 <==> FindById(old(users), userId).None?
      ensures status == 404 ==> users == old(users)
      ensures status != 404 ==>
        var i := FindById(old(users), userId).value;
        && status == 200
        && users == old(users)[..i] + old(users)[i + 1..]
        && FindById(users, userId).None?
    {
      var found := FindById(users, userId);
      if found.None? {
        return 404;
      }
      var i := found.value;
      RemovePreserves(users, i, nextId);
      users := users[..i] + users[i + 1..];
      status := 200;
    }
  }
}
