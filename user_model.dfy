/**
 The user document of the task manager (src/models/user.js): the schema's setters
 (trim, lowercase), its default, its validators (required, minlength and the three
 custom ones), and the pre-save hook that rehashes a modified password.

 Two collaborators are parameters rather than code: `hash` stands for bcrypt with
 a fresh salt (so each save may pass a different one), and `isEmail` for the
 validator library's e-mail check.
 */
module UserModel {
  import opened Wrappers
  import opened Text

  const MinPasswordLength := 7
  const DefaultAge := 0
  /** The word a password may not contain, in any letter case. */
  const ForbiddenWord := "password"

  /** The schema paths that carry validators. */
  datatype Field = Name | Email | Age | Password

  /** A value of a JSON request body, as far as the schema's fields take one. */
  datatype Value = Str(s: string) | Num(n: int)

  /** A request body: each key with its value, in the order of Object.keys. */
  type Body = seq<(string, Value)>

  /** The in-memory state of one user document. */
  datatype Doc = Doc(
    name: Option<string>,
    email: Option<string>,
    age: int,
    password: Option<string>,
    tokens: seq<string>,
    avatar: Option<seq<bv8>>,
    passwordModified: bool,  // what isModified("password") answers
    ageCastError: bool)      // the last value given to age could not be cast to a number

  /** A fresh document: only the default of `age` is set. */
  function NewDoc(): Doc {
    Doc(None, None, DefaultAge, None, [], None, false, false)
  }

  function FieldOf(key: string): Option<Field> {
    if key == "name" then Some(Name)
    else if key == "email" then Some(Email)
    else if key == "age" then Some(Age)
    else if key == "password" then Some(Password)
    else None
  }

  /** The String cast: a JSON number is stored as its decimal form. */
  function AsString(v: Value): string {
    match v
    case Str(s) => s
    case Num(n) => Decimal(n)
  }

  /** What a string path stores for `v`: the cast value through the path's setters. */
  function Stored(f: Field, v: Value): string {
    if f == Email then ToLower(Trim(AsString(v))) else Trim(AsString(v))
  }

  /** `doc[key] = v` on a document: the value is cast and passed through the path's
      setters; a key outside the schema is not stored, and a value the Number cast
      refuses leaves the old value and records a cast error. */
  function Assigned(d: Doc, key: string, v: Value): Doc {
    match FieldOf(key)
    case None => d
    case Some(Name) => d.(name := Some(Stored(Name, v)))
    case Some(Email) => d.(email := Some(Stored(Email, v)))
    case Some(Password) =>
      var p := Stored(Password, v);
      d.(password := Some(p), passwordModified := d.passwordModified || d.password != Some(p))
    case Some(Age) =>
      if v.Num? then d.(age := v.n, ageCastError := false)
      else d.(ageCastError := true)
  }

  /** The body's entries assigned one after another, first key first. */
  function AssignedAll(d: Doc, body: Body): Doc
    decreases |body|
  {
    if body == [] then d
    else
      var last := body[|body| - 1];
      Assigned(AssignedAll(d, body[..|body| - 1]), last.0, last.1)
  }

  /** The value the body gives `key`, if any (the last one, should a key repeat). */
  function Lookup(body: Body, key: string): Option<Value>
    decreases |body|
  {
    if body == [] then None
    else if body[|body| - 1].0 == key then Some(body[|body| - 1].1)
    else Lookup(body[..|body| - 1], key)
  }

  /** Object keys are distinct. */
  predicate DistinctKeys(body: Body) {
    forall i, j :: 0 <= i < j < |body| ==> body[i].0 != body[j].0
  }

  /** The document as it would be had only the body's entry for `key` been assigned. */
  function Pick(d: Doc, body: Body, key: string): Doc {
    match Lookup(body, key)
    case None => d
    case Some(v) => Assigned(d, key, v)
  }

  lemma {:induction false} LookupAbsent(body: Body, key: string)
    requires forall i :: 0 <= i < |body| ==> body[i].0 != key
    ensures Lookup(body, key) == None
  {
    if body != [] {
      LookupAbsent(body[..|body| - 1], key);
    }
  }

  /** Assigning a body field by field: every schema field ends up as its own entry
      alone makes it, whatever the order of the keys, and the session tokens and the
      avatar are never touched. */
  lemma AssignedAllPerField(d: Doc, body: Body)
    requires DistinctKeys(body)
    ensures var r := AssignedAll(d, body);
      && r.name == Pick(d, body, "name").name
      && r.email == Pick(d, body, "email").email
      && r.age == Pick(d, body, "age").age
      && r.ageCastError == Pick(d, body, "age").ageCastError
      && r.password == Pick(d, body, "password").password
      && r.passwordModified == Pick(d, body, "password").passwordModified
      && r.tokens == d.tokens && r.avatar == d.avatar
  {
    AssignedAllName(d, body);
    AssignedAllEmail(d, body);
    AssignedAllAge(d, body);
    AssignedAllPassword(d, body);
    AssignedAllKeepsSessions(d, body);
  }

  /** An assignment changes only the parts of the document that belong to its key. */
  lemma AssignedFrame(d: Doc, key: string, v: Value)
    ensures FieldOf(key) != Some(Name) ==> Assigned(d, key, v).name == d.name
    ensures FieldOf(key) != Some(Email) ==> Assigned(d, key, v).email == d.email
    ensures FieldOf(key) != Some(Age) ==>
      Assigned(d, key, v).age == d.age && Assigned(d, key, v).ageCastError == d.ageCastError
    ensures FieldOf(key) != Some(Password) ==>
      Assigned(d, key, v).password == d.password && Assigned(d, key, v).passwordModified == d.passwordModified
    ensures Assigned(d, key, v).tokens == d.tokens && Assigned(d, key, v).avatar == d.avatar
  {
  }

  /** Assigned, one schema path at a time. */
  lemma AssignedCases(d: Doc, key: string, v: Value)
    ensures FieldOf(key).None? ==> Assigned(d, key, v) == d
    ensures FieldOf(key) == Some(Name) ==> Assigned(d, key, v) == d.(name := Some(Stored(Name, v)))
    ensures FieldOf(key) == Some(Email) ==> Assigned(d, key, v) == d.(email := Some(Stored(Email, v)))
    ensures FieldOf(key) == Some(Password) ==>
      (Assigned(d, key, v) == d.(password := Some(Stored(Password, v)),
                                 passwordModified := d.passwordModified || d.password != Some(Stored(Password, v))))
    ensures FieldOf(key) == Some(Age) ==>
      (Assigned(d, key, v) == if v.Num? then d.(age := v.n, ageCastError := false) else d.(ageCastError := true))
  {
  }

  /** One step of AssignedAll and of Pick: the last entry of the body. */
  lemma AssignedAllLast(d: Doc, body: Body, key: string)
    requires body != []
    ensures AssignedAll(d, body) == Assigned(AssignedAll(d, body[..|body| - 1]), body[|body| - 1].0, body[|body| - 1].1)
    ensures body[|body| - 1].0 != key ==> Pick(d, body, key) == Pick(d, body[..|body| - 1], key)
    ensures body[|body| - 1].0 == key ==> Pick(d, body, key) == Assigned(d, key, body[|body| - 1].1)
  {
  }

  lemma {:induction false} AssignedAllName(d: Doc, body: Body)
    ensures AssignedAll(d, body).name == Pick(d, body, "name").name
  {
    if body != [] {
      var (k, v) := body[|body| - 1];
      AssignedAllName(d, body[..|body| - 1]);
      AssignedAllLast(d, body, "name");
      AssignedFrame(AssignedAll(d, body[..|body| - 1]), k, v);
    }
  }

  lemma {:induction false} AssignedAllEmail(d: Doc, body: Body)
    ensures AssignedAll(d, body).email == Pick(d, body, "email").email
  {
    if body != [] {
      var (k, v) := body[|body| - 1];
      AssignedAllEmail(d, body[..|body| - 1]);
      AssignedAllLast(d, body, "email");
      AssignedFrame(AssignedAll(d, body[..|body| - 1]), k, v);
    }
  }

  lemma {:induction false} AssignedAllAge(d: Doc, body: Body)
    requires DistinctKeys(body)
    ensures AssignedAll(d, body).age == Pick(d, body, "age").age
    ensures AssignedAll(d, body).ageCastError == Pick(d, body, "age").ageCastError
  {
    if body != [] {
      var prefix := body[..|body| - 1];
      var (k, v) := body[|body| - 1];
      assert DistinctKeys(prefix);
      AssignedAllAge(d, prefix);
      LookupAbsent(prefix, k);
      AssignedAllLast(d, body, "age");
      AssignedFrame(AssignedAll(d, prefix), k, v);
    }
  }

  lemma {:induction false} AssignedAllPassword(d: Doc, body: Body)
    requires DistinctKeys(body)
    ensures AssignedAll(d, body).password == Pick(d, body, "password").password
    ensures AssignedAll(d, body).passwordModified == Pick(d, body, "password").passwordModified
  {
    if body != [] {
      var prefix := body[..|body| - 1];
      var (k, v) := body[|body| - 1];
      assert DistinctKeys(prefix);
      AssignedAllPassword(d, prefix);
      LookupAbsent(prefix, k);
      AssignedAllLast(d, body, "password");
      AssignedFrame(AssignedAll(d, prefix), k, v);
    }
  }

  /** No assignment reaches the session tokens or the avatar. */
  lemma {:induction false} AssignedAllKeepsSessions(d: Doc, body: Body)
    ensures AssignedAll(d, body).tokens == d.tokens
    ensures AssignedAll(d, body).avatar == d.avatar
  {
    if body != [] {
      AssignedAllKeepsSessions(d, body[..|body| - 1]);
    }
  }

  predicate NameOk(name: Option<string>) {
    name.Some? && name.value != []
  }

  predicate EmailOk(email: Option<string>, isEmail: string -> bool) {
    email.Some? && email.value != [] && isEmail(email.value)
  }

  predicate AgeOk(age: int) {
    !(age < 0)
  }

  /** Required (an empty string fails it, and minlength implies it), at least
      MinPasswordLength long, and free of ForbiddenWord in any letter case. */
  predicate PasswordOk(password: Option<string>) {
    password.Some? && |password.value| >= MinPasswordLength
    && !Contains(ToLower(password.value), ForbiddenWord)
  }

  /** The paths whose validation fails: Mongoose reports them all in one error. */
  function Violations(d: Doc, isEmail: string -> bool): set<Field> {
    (if NameOk(d.name) then {} else {Name})
    + (if EmailOk(d.email, isEmail) then {} else {Email})
    + (if AgeOk(d.age) && !d.ageCastError then {} else {Age})
    + (if PasswordOk(d.password) then {} else {Password})
  }

  predicate Valid(d: Doc, isEmail: string -> bool) {
    Violations(d, isEmail) == {}
  }

  /** The pre-save hook: a modified password is replaced by its digest; the save
      then clears the modification flag. The digest is stored as it is: the path's
      trim setter, which the hook's assignment also passes through, leaves it alone
      because a digest carries no surrounding white space (see DigestLike). */
  function Hashed(d: Doc, hash: string -> string): Doc {
    d.(password := if d.passwordModified && d.password.Some? then Some(hash(d.password.value)) else d.password,
       passwordModified := false)
  }

  /** save(): validation runs first; only a valid document reaches the hook. */
  function Persisted(d: Doc, hash: string -> string, isEmail: string -> bool): Doc {
    if Valid(d, isEmail) then Hashed(d, hash) else d
  }

  /** The session token a login or sign-up issues, appended to the list. */
  function WithToken(d: Doc, token: string): Doc {
    d.(tokens := d.tokens + [token])
  }

  /** What the model assumes of a bcrypt digest: it never equals its input, carries no
      surrounding white space, and passes the password rules it meets again on every
      later save of the document. */
  ghost predicate DigestLike(hash: string -> string) {
    forall p :: hash(p) != p && Trimmed(hash(p)) && PasswordOk(Some(hash(p)))
  }

  lemma TrimEmptyIffAllSpace(s: string)
    ensures Trim(s) == [] <==> AllSpace(s)
  {
  }

  /** `name` is required and stored trimmed: a name of white space alone is rejected. */
  lemma NameRule(d: Doc, s: string, isEmail: string -> bool)
    ensures Assigned(d, "name", Str(s)).name == Some(Trim(s))
    ensures Name in Violations(Assigned(d, "name", Str(s)), isEmail) <==> AllSpace(s)
  {
    var d' := Assigned(d, "name", Str(s));
    assert d'.name == Some(Trim(s));
    ViolationsPerPath(d', isEmail);
    TrimEmptyIffAllSpace(s);
  }

  /** `email` is stored trimmed and lower-cased, and rejected when the check fails. */
  lemma EmailRule(d: Doc, v: Value, isEmail: string -> bool)
    ensures var e := Assigned(d, "email", v).email;
      && e == Some(Trim(ToLower(AsString(v))))
      && Trimmed(e.value) && NoUpper(e.value)
      && (Email in Violations(Assigned(d, "email", v), isEmail) <==> e.value == [] || !isEmail(e.value))
  {
    var d' := Assigned(d, "email", v);
    assert d'.email == Some(ToLower(Trim(AsString(v))));
    ViolationsPerPath(d', isEmail);
    TrimLowerCommute(AsString(v));
    ToLowerHasNoUpper(Trim(AsString(v)));
  }

  /** `age` defaults to 0 and any negative age, or a value that is not a number, is
      rejected. */
  lemma AgeRule(d: Doc, v: Value, isEmail: string -> bool)
    ensures NewDoc().age == DefaultAge && AgeOk(NewDoc().age)
    ensures Age in Violations(Assigned(d, "age", v), isEmail) <==> (v.Num? ==> v.n < 0)
  {
  }

  /** `password` is stored trimmed; it is rejected when its trimmed length is below
      MinPasswordLength or when it contains ForbiddenWord in any letter case. */
  lemma PasswordRule(d: Doc, s: string, isEmail: string -> bool)
    ensures Assigned(d, "password", Str(s)).password == Some(Trim(s))
    ensures Password in Violations(Assigned(d, "password", Str(s)), isEmail)
        <==> |Trim(s)| < MinPasswordLength || Contains(ToLower(s), ForbiddenWord)
  {
    var d' := Assigned(d, "password", Str(s));
    assert d'.password == Some(Trim(s));
    ViolationsPerPath(d', isEmail);
    ForbiddenWordIgnoresPadding(s);
  }

  /** Which paths fail, one path at a time. */
  lemma ViolationsPerPath(d: Doc, isEmail: string -> bool)
    ensures Name in Violations(d, isEmail) <==> !NameOk(d.name)
    ensures Email in Violations(d, isEmail) <==> !EmailOk(d.email, isEmail)
    ensures Age in Violations(d, isEmail) <==> !AgeOk(d.age) || d.ageCastError
    ensures Password in Violations(d, isEmail) <==> !PasswordOk(d.password)
  {
  }

  /** Whether the forbidden word occurs does not depend on the padding trim removes. */
  lemma ForbiddenWordIgnoresPadding(s: string)
    ensures Contains(ToLower(Trim(s)), ForbiddenWord) <==> Contains(ToLower(s), ForbiddenWord)
  {
    TrimLowerCommute(s);
    ForbiddenWordHasNoSpace();
    ContainsIgnoresPadding(ToLower(s), ForbiddenWord);
  }

  lemma ForbiddenWordHasNoSpace()
    ensures ForbiddenWord != [] && forall k :: 0 <= k < |ForbiddenWord| ==> !IsSpace(ForbiddenWord[k])
  {
  }

  /** A mixed-case spelling of the forbidden word is rejected too. */
  lemma MixedCasePasswordRejected(d: Doc, s: string, isEmail: string -> bool)
    requires s == "myPassWord1"
    ensures Password in Violations(Assigned(d, "password", Str(s)), isEmail)
  {
    var lower := ToLower(s);
    assert lower[2] == 'p' && lower[3] == 'a' && lower[4] == 's' && lower[5] == 's';
    assert lower[6] == 'w' && lower[7] == 'o' && lower[8] == 'r' && lower[9] == 'd';
    OccursAtPointwise(lower, ForbiddenWord, 2);
    assert OccursAt(lower, ForbiddenWord, 2);
    PasswordRule(d, s, isEmail);
  }

  /** A second save never hashes again: the first clears the modification flag. */
  lemma {:induction false} SaveTwiceHashesOnce(d: Doc, h1: string -> string, h2: string -> string,
                                               isEmail: string -> bool)
    ensures Persisted(Persisted(d, h1, isEmail), h2, isEmail) == Persisted(d, h1, isEmail)
  {
    if Valid(d, isEmail) {
      var once := Hashed(d, h1);
      assert !once.passwordModified;
      assert Hashed(once, h2) == once;
    }
  }

  /** A valid save changes the stored password exactly when it was modified, and
      changes nothing but the password and the flag. */
  lemma SaveHashesIffModified(d: Doc, hash: string -> string, isEmail: string -> bool)
    requires Valid(d, isEmail) && DigestLike(hash)
    ensures var r := Persisted(d, hash, isEmail);
      && (r.password != d.password <==> d.passwordModified)
      && (d.passwordModified ==> r.password == Some(hash(d.password.value)))
      && r.(password := d.password, passwordModified := d.passwordModified) == d
  {
    assert Password !in Violations(d, isEmail);
    if d.passwordModified {
      assert hash(d.password.value) != d.password.value;
    }
  }

  /** A document that passes validation still passes once its password is hashed and
      a token appended: the save inside token issuing succeeds. */
  lemma DigestKeepsValid(d: Doc, hash: string -> string, token: string, isEmail: string -> bool)
    requires Valid(d, isEmail) && DigestLike(hash)
    ensures Valid(Hashed(d, hash), isEmail)
    ensures Valid(WithToken(Hashed(d, hash), token), isEmail)
  {
    assert Password !in Violations(d, isEmail);
    if d.passwordModified {
      assert PasswordOk(Some(hash(d.password.value)));
    }
  }

  /** A sign-up body's password arrives trimmed and marked modified. */
  lemma NewPasswordModified(body: Body, plain: string)
    requires DistinctKeys(body) && Lookup(body, "password") == Some(Str(plain))
    ensures AssignedAll(NewDoc(), body).password == Some(Trim(plain))
    ensures AssignedAll(NewDoc(), body).passwordModified
  {
    AssignedAllPerField(NewDoc(), body);
    assert Pick(NewDoc(), body, "password") == Assigned(NewDoc(), "password", Str(plain));
  }

  /** Signing up with a valid body stores the digest of the trimmed plaintext, which
      is never the submitted plaintext itself. */
  lemma SignUpStoresDigest(body: Body, plain: string, hash: string -> string, isEmail: string -> bool)
    requires DistinctKeys(body) && Lookup(body, "password") == Some(Str(plain))
    requires Valid(AssignedAll(NewDoc(), body), isEmail) && DigestLike(hash)
    ensures Persisted(AssignedAll(NewDoc(), body), hash, isEmail).password == Some(hash(Trim(plain)))
    ensures Persisted(AssignedAll(NewDoc(), body), hash, isEmail).password != Some(plain)
  {
    NewPasswordModified(body, plain);
    var t := Trim(plain);
    assert hash(t) != t && Trimmed(hash(t));
    if hash(t) == plain {
      TrimOfTrimmed(plain);
    }
  }

  /** One user document, updated in place by the route handlers. */
  class User {
    var name: Option<string>
    var email: Option<string>
    var age: int
    var password: Option<string>
    var tokens: seq<string>
    var avatar: Option<seq<bv8>>
    var passwordModified: bool
    var ageCastError: bool

    function State(): Doc
      reads this
    {
      Doc(name, email, age, password, tokens, avatar, passwordModified, ageCastError)
    }

    /** new User(body): the defaults, then every schema key of the body through its
        setter; unknown keys are dropped. */
    constructor (body: Body)
      ensures State() == AssignedAll(NewDoc(), body)
    {
      var d := AssignedAll(NewDoc(), body);
      name, email, age, password := d.name, d.email, d.age, d.password;
      tokens, avatar := d.tokens, d.avatar;
      passwordModified, ageCastError := d.passwordModified, d.ageCastError;
    }

    /** user[key] = v */
    method Assign(key: string, v: Value)
      modifies this
      ensures State() == Assigned(old(State()), key, v)
    {
      AssignedCases(State(), key, v);
      match FieldOf(key)
      case None =>
      case Some(Name) => name := Some(Stored(Name, v));
      case Some(Email) => email := Some(Stored(Email, v));
      case Some(Password) => SetPassword(Stored(Password, v));
      case Some(Age) => SetAge(v);
    }

    /** The password path: the flag records whether the stored value changes. */
    method SetPassword(p: string)
      modifies this
      ensures State() == old(State()).(password := Some(p),
                                       passwordModified := old(passwordModified) || old(password) != Some(p))
    {
      passwordModified := passwordModified || password != Some(p);
      password := Some(p);
    }

    /** The age path: a value the Number cast refuses keeps the old age. */
    method SetAge(v: Value)
      modifies this
      ensures State() == if v.Num? then old(State()).(age := v.n, ageCastError := false)
                         else old(State()).(ageCastError := true)
    {
      if v.Num? {
        age, ageCastError := v.n, false;
      } else {
        ageCastError := true;
      }
    }

    /** save(): validate every path; on success run the pre-save hook and clear the
        modification flag. Returns the failing paths, empty on success. */
    method Save(hash: string -> string, isEmail: string -> bool) returns (violations: set<Field>)
      modifies this
      ensures violations == Violations(old(State()), isEmail)
      ensures State() == Persisted(old(State()), hash, isEmail)
    {
      violations := Violations(State(), isEmail);
      if violations == {} {
        if passwordModified {
          assert Password !in violations;
          password := Some(hash(password.value));
        }
        passwordModified := false;
      }
    }

    /** Token issuing (the model's generateAuthToken): append the new session token,
        then save. */
    method IssueToken(token: string, hash: string -> string, isEmail: string -> bool)
      returns (violations: set<Field>)
      modifies this
      ensures violations == Violations(WithToken(old(State()), token), isEmail)
      ensures State() == Persisted(WithToken(old(State()), token), hash, isEmail)
    {
      tokens := tokens + [token];
      violations := Save(hash, isEmail);
    }
  }
}
