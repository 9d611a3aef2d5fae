/** The user schema (models/user.js): field constraints, the normalising
    setters of the e-mail field, the e-mail pattern `/^\S+@\S+\.\S+$/`, the
    pre-save hook that re-hashes the password only when it was modified, and
    matchPassword. bcrypt is an abstract function `hash` given as a parameter. */
module Users {
  import opened Common

  const MaxNameLength: nat := 50
  const MinPasswordLength: nat := 6

  datatype Role = AdminRole | UserRole

  /** A stored user; `password` holds the hash. */
  datatype User = User(
    id: UserId,
    name: string,
    email: string,
    password: string,
    role: Role,
    isActivated: bool,
    activationLink: Option<string>)

  /** The `trim` and `lowercase` setters of the e-mail field. */
  function NormaliseEmail(s: string): (r: string)
    ensures |r| <= |s|
  {
    Lower(Trim(s))
  }

  /** A normalised e-mail is the trimmed input up to ASCII case, has no
      upper-case letter and no white space at either end, and normalising it
      again changes nothing. */
  lemma NormaliseEmailFacts(s: string)
    ensures var n := NormaliseEmail(s);
      && SameIgnoringCase(n, Trim(s))
      && NoUpper(n)
      && Trimmed(n)
      && NormaliseEmail(n) == n
  {
    var t := Trim(s);
    var n := Lower(t);
    LowerFacts(t);
    assert SameIgnoringCase(n, t) by {
      forall i | 0 <= i < |n| ensures SameLetter(n[i], t[i]) {
        assert n[i] == LowerChar(t[i]);
      }
    }
    if n != [] {
      assert IsSpace(n[0]) <==> IsSpace(t[0]);
      assert IsSpace(n[|n| - 1]) <==> IsSpace(t[|t| - 1]);
    }
    TrimOfTrimmed(n);
    LowerIdempotent(t);
  }

  /** Two e-mails are stored as the same string, and so collide on the unique
      index, exactly when their trimmed forms agree up to ASCII case. */
  lemma NormaliseEmailEq(a: string, b: string)
    ensures NormaliseEmail(a) == NormaliseEmail(b) <==> SameIgnoringCase(Trim(a), Trim(b))
  {
    LowerEqIff(Trim(a), Trim(b));
  }

  /** The language of `/^\S+@\S+\.\S+$/`: no white space anywhere, and some '@'
      after at least one character, followed after at least one more character
      by a '.' that has at least one character after it. `\S` matches '@' and
      '.' too, so further ones are allowed. */
  ghost predicate EmailShape(s: string) {
    && NoSpace(s)
    && exists a, b :: 1 <= a && a + 2 <= b && b + 2 <= |s| && s[a] == '@' && s[b] == '.'
  }

  function FirstIndexFrom(s: string, c: char, from: nat): (r: nat)
    requires from <= |s|
    ensures from <= r <= |s|
    ensures r < |s| ==> s[r] == c
    ensures forall k :: from <= k < r ==> s[k] != c
    decreases |s| - from
  {
    if from == |s| || s[from] == c then from else FirstIndexFrom(s, c, from + 1)
  }

  function LastIndexBefore(s: string, c: char, bound: nat): (r: int)
    requires bound <= |s|
    ensures -1 <= r < bound
    ensures 0 <= r ==> s[r] == c
    ensures forall k :: r < k < bound ==> s[k] != c
  {
    if bound == 0 then -1
    else if s[bound - 1] == c then bound - 1
    else LastIndexBefore(s, c, bound - 1)
  }

  /** The regular-expression test: take the first '@' that has a character
      before it and the last '.' that has a character after it; the string
      matches exactly when at least one character lies between them. */
  function MatchesEmailPattern(s: string): (r: bool)
    ensures r ==> |s| >= 5
  {
    && |s| >= 2
    && NoSpace(s)
    && FirstIndexFrom(s, '@', 1) + 2 <= LastIndexBefore(s, '.', |s| - 1)
  }

  /** The test accepts exactly the language of the pattern. */
  lemma MatchesEmailPatternIff(s: string)
    ensures MatchesEmailPattern(s) <==> EmailShape(s)
  {
    if EmailShape(s) {
      var a', b' :| 1 <= a' && a' + 2 <= b' && b' + 2 <= |s| && s[a'] == '@' && s[b'] == '.';
      assert FirstIndexFrom(s, '@', 1) <= a';
      assert b' <= LastIndexBefore(s, '.', |s| - 1);
    }
  }

  /** The name validators, on a value the trim setter has already produced. */
  predicate ValidName(n: string) {
    Trimmed(n) && n != [] && Utf16Length(n) <= MaxNameLength
  }

  /** The email validators, on a value the setters have already normalised. */
  predicate ValidEmail(e: string) {
    NoUpper(e) && MatchesEmailPattern(e)
  }

  /** A valid name is its own trim; a valid email is its own normal form,
      has no white space and has the shape of the pattern. */
  lemma ValidFieldsNormalised(n: string, e: string)
    ensures ValidName(n) <==> n == Trim(n) && n != [] && Utf16Length(n) <= MaxNameLength
    ensures ValidEmail(e) <==> e == NormaliseEmail(e) && EmailShape(e)
  {
    TrimmedIff(n);
    MatchesEmailPatternIff(e);
    if ValidEmail(e) {
      TrimNoSpace(e);
      LowerFixedIff(e);
    }
    if e == NormaliseEmail(e) {
      NormaliseEmailFacts(e);
    }
  }

  /** What every stored user satisfies: the validators of name and email
      passed on its last save. */
  predicate ValidUser(u: User) {
    ValidName(u.name) && ValidEmail(u.email)
  }

  /** The schema validators `save` runs first: name and email constraints,
      and the minimum length of a password that was modified (checked on the
      plain text, before the pre-save hook replaces it by its hash). */
  predicate Saveable(u: User, passwordModified: bool) {
    ValidUser(u) && (passwordModified ==> Utf16Length(u.password) >= MinPasswordLength)
  }

  /** `save` accepts a document exactly when the name is its own trim,
      non-empty and at most 50 UTF-16 code units long, the e-mail is its own
      normal form and matches the pattern, and a modified password has at
      least 6 code units. */
  lemma SaveableIff(u: User, passwordModified: bool)
    ensures Saveable(u, passwordModified) <==>
      && u.name == Trim(u.name) && u.name != [] && Utf16Length(u.name) <= MaxNameLength
      && u.email == NormaliseEmail(u.email) && EmailShape(u.email)
      && (passwordModified ==> Utf16Length(u.password) >= MinPasswordLength)
  {
    ValidFieldsNormalised(u.name, u.email);
  }

  /** matchPassword: bcrypt.compare of the entered password with the stored hash. */
  predicate MatchPassword(u: User, hash: string -> string, entered: string) {
    hash(entered) == u.password
  }

  /** With a collision-free hash, a user whose stored password is the hash of
      `p` matches exactly the entered password `p`. */
  lemma MatchPasswordExact(u: User, hash: string -> string, p: string, entered: string)
    requires forall a, b :: hash(a) == hash(b) ==> a == b
    requires u.password == hash(p)
    ensures MatchPassword(u, hash, entered) <==> entered == p
  {
  }

  /** A user document between its construction or load and its save. Setters
      run on assignment; `passwordModified` is Mongoose's isModified('password'). */
  class UserDocument {
    var id: UserId
    var name: string
    var email: string
    var password: string
    var role: Role
    var isActivated: bool
    var activationLink: Option<string>
    var passwordModified: bool

    function Snapshot(): User
      reads this
    {
      User(id, name, email, password, role, isActivated, activationLink)
    }

    /** `new User({ name, email, password, activationLink })`: setters applied,
        role 'user' and isActivated false by default; every path of a new
        document counts as modified. */
    constructor Create(id: UserId, name: string, email: string, password: string, activationLink: Option<string>)
      ensures Snapshot() == User(id, Trim(name), NormaliseEmail(email), password, UserRole, false, activationLink)
      ensures passwordModified
    {
      this.id := id;
      this.name := Trim(name);
      this.email := NormaliseEmail(email);
      this.password := password;
      this.role := UserRole;
      this.isActivated := false;
      this.activationLink := activationLink;
      this.passwordModified := true;
    }

    /** A document read from the collection: nothing modified yet. */
    constructor Load(u: User)
      ensures Snapshot() == u && !passwordModified
    {
      id, name, email, password := u.id, u.name, u.email, u.password;
      role, isActivated, activationLink := u.role, u.isActivated, u.activationLink;
      passwordModified := false;
    }

    method SetName(n: string)
      modifies this
      ensures Snapshot() == old(Snapshot()).(name := Trim(n))
      ensures passwordModified == old(passwordModified)
    {
      name := Trim(n);
    }

    method SetEmail(e: string)
      modifies this
      ensures Snapshot() == old(Snapshot()).(email := NormaliseEmail(e))
      ensures passwordModified == old(passwordModified)
    {
      email := NormaliseEmail(e);
    }

    /** Mongoose marks the path modified only when the new value differs
        from the current one. */
    method SetPassword(p: string)
      modifies this
      ensures Snapshot() == old(Snapshot()).(password := p)
      ensures passwordModified == (old(passwordModified) || p != old(password))
    {
      passwordModified := passwordModified || p != password;
      password := p;
    }

    method SetActivated()
      modifies this
      ensures Snapshot() == old(Snapshot()).(isActivated := true)
      ensures passwordModified == old(passwordModified)
    {
      isActivated := true;
    }

    /** The pre('save') hook: hash the password only if it was modified;
        otherwise the stored hash is kept as it is. */
    method PreSave(hash: string -> string)
      modifies this
      ensures Snapshot() == old(Snapshot()).(password := if old(passwordModified) then hash(old(password)) else old(password))
      ensures !passwordModified
      ensures old(passwordModified) ==> MatchPassword(Snapshot(), hash, old(password))
      ensures !old(passwordModified) ==> forall p :: MatchPassword(Snapshot(), hash, p) == MatchPassword(old(Snapshot()), hash, p)
    {
      if passwordModified {
        password := hash(password);
      }
      passwordModified := false;
    }
  }
}
