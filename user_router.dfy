/**
 The user routes of the task manager (src/routers/user.js) as operations on one user
 document: sign-up, login, logout, logout everywhere, the whitelisted profile update,
 and the avatar upload, removal and download. Each handler returns the Reply the route
 sends; the authentication middleware, the credential lookup and the image library
 are the caller's: a handler receives the authenticated document, the document found
 (or null), the signed token and the image normaliser as arguments.
 */
module UserRouter {
  import opened Wrappers
  import opened Text
  import opened UserModel

  /** The keys PATCH /users/me accepts. */
  const AllowedUpdates: seq<string> := ["name", "email", "password", "age"]
  /** The upload size limit, in bytes. */
  const MaxAvatarBytes := 1000000
  const FormatError := "Please upload files with formats of .jpg, jpeg, .png"
  /** The message of the upload library's size-limit error. */
  const TooLargeError := "File too large"
  const InvalidUpdates := "Invalid Updates"
  const PngType := "image/png"

  datatype ErrorBody = NoBody | Message(text: string) | Invalid(paths: set<Field>)

  /** The response a route sends, by status. */
  datatype Reply =
    | Sent                                        // 200, empty body
    | SentUser(user: Doc)                         // 200, the user
    | Created(token: string)                      // 201, the user and the token
    | LoggedIn(token: string)                     // 200, the user and the token
    | Image(contentType: string, bytes: seq<bv8>) // 200, the avatar
    | BadRequest(error: ErrorBody)                // 400
    | NotFound(error: ErrorBody)                  // 404
    | ServerError(error: ErrorBody)               // 500
    | Unanswered  // the handler's promise rejects outside any try: nothing is sent

  // ---------------------------------------------------------------- tokens

  /** The session list without every entry equal to `current`, in the original order. */
  function Without(tokens: seq<string>, current: string): seq<string> {
    if tokens == [] then []
    else (if tokens[0] == current then [] else [tokens[0]]) + Without(tokens[1..], current)
  }

  /** The logout filter drops every copy of the current token and keeps every other
      token as often as it was held. */
  lemma {:induction false} WithoutCounts(tokens: seq<string>, current: string)
    ensures multiset(Without(tokens, current)) == multiset(tokens)[current := 0]
  {
    if tokens != [] {
      assert tokens == [tokens[0]] + tokens[1..];
      WithoutCounts(tokens[1..], current);
    }
  }

  /** Filtering distributes over concatenation: together with the one-element case this
      fixes the order of what remains. */
  lemma {:induction false} WithoutConcat(a: seq<string>, b: seq<string>, current: string)
    ensures Without(a + b, current) == Without(a, current) + Without(b, current)
  {
    if a == [] {
      assert a + b == b;
    } else {
      assert (a + b)[0] == a[0] && (a + b)[1..] == a[1..] + b;
      WithoutConcat(a[1..], b, current);
    }
  }

  /** Logging out with a token the list does not hold leaves the list as it was. */
  lemma {:induction false} WithoutAbsent(tokens: seq<string>, current: string)
    requires current !in tokens
    ensures Without(tokens, current) == tokens
  {
    if tokens != [] {
      WithoutAbsent(tokens[1..], current);
    }
  }

  /** Logging out the session a login just opened restores the list from before the
      login, when the new token was not already there. */
  lemma LogoutUndoesLogin(tokens: seq<string>, token: string)
    requires token !in tokens
    ensures Without(tokens + [token], token) == tokens
  {
    WithoutConcat(tokens, [token], token);
    WithoutAbsent(tokens, token);
  }

  /** Logging out each listed session in turn. */
  function WithoutEach(tokens: seq<string>, revoked: seq<string>): seq<string>
    decreases |revoked|
  {
    if revoked == [] then tokens else WithoutEach(Without(tokens, revoked[0]), revoked[1..])
  }

  lemma {:induction false} WithoutEachMembers(tokens: seq<string>, revoked: seq<string>, x: string)
    ensures x in WithoutEach(tokens, revoked) <==> x in tokens && x !in revoked
    decreases |revoked|
  {
    if revoked != [] {
      WithoutEachMembers(Without(tokens, revoked[0]), revoked[1..], x);
      WithoutCounts(tokens, revoked[0]);
      assert x in Without(tokens, revoked[0]) <==> x in multiset(Without(tokens, revoked[0]));
    }
  }

  /** Logging out every session one by one ends where logging out everywhere does. */
  lemma LogoutEachIsLogoutAll(tokens: seq<string>)
    ensures WithoutEach(tokens, tokens) == []
  {
    var r := WithoutEach(tokens, tokens);
    if r != [] {
      WithoutEachMembers(tokens, tokens, r[0]);
    }
  }

  // ---------------------------------------------------------------- updates

  function Keys(body: Body): seq<string> {
    seq(|body|, i requires 0 <= i < |body| => body[i].0)
  }

  /** Every key of the update is an allowed one. */
  function IsValidOperation(updates: seq<string>): (ok: bool)
    ensures ok <==> forall i :: 0 <= i < |updates| ==> updates[i] in AllowedUpdates
  {
    updates == [] || (updates[0] in AllowedUpdates && IsValidOperation(updates[1..]))
  }

  /** An allowed key always names one of the schema's fields. */
  lemma AllowedKeysAreFields(key: string)
    ensures key in AllowedUpdates <==> FieldOf(key).Some?
  {
  }

  /** The update `{"location": "Ann Arbor"}` is refused; the empty update is allowed. */
  lemma UpdateWhitelistExamples()
    ensures !IsValidOperation(Keys([("location", Str("Ann Arbor"))]))
    ensures IsValidOperation(Keys([("name", Str("Jeff"))]))
    ensures IsValidOperation(Keys([]))
  {
    assert Keys([("location", Str("Ann Arbor"))])[0] == "location";
    assert Keys([("name", Str("Jeff"))]) == ["name"];
  }

  /** An accepted update that changes the password goes through the normal save: the
      stored password is the digest of the new one. */
  lemma UpdateRehashesPassword(d: Doc, body: Body, s: string, hash: string -> string,
                               isEmail: string -> bool)
    requires DistinctKeys(body) && Lookup(body, "password") == Some(Str(s))
    requires d.password != Some(Trim(s))
    requires Valid(AssignedAll(d, body), isEmail)
    ensures Persisted(AssignedAll(d, body), hash, isEmail).password == Some(hash(Trim(s)))
  {
    AssignedAllPerField(d, body);
    assert Pick(d, body, "password") == Assigned(d, "password", Str(s));
  }

  // ---------------------------------------------------------------- uploads

  /** The file-name test as implemented: a suffix test for each allowed extension. */
  predicate HasImageExtension(filename: string) {
    EndsWith(filename, ".jpg") || EndsWith(filename, ".jpeg") || EndsWith(filename, ".png")
  }

  /** The pattern /\.(jpg|jpeg|png)$/ read literally: a dot, then one of the three
      names, then the end of the name (case-sensitive). */
  ghost predicate MatchesImagePattern(filename: string) {
    exists i :: 0 <= i < |filename| && DotThenImageName(filename, i)
  }

  predicate DotThenImageName(filename: string, i: int)
    requires 0 <= i < |filename|
  {
    filename[i] == '.' && (filename[i + 1..] == "jpg" || filename[i + 1..] == "jpeg" || filename[i + 1..] == "png")
  }

  lemma ImagePatternIsSuffixTest(filename: string)
    ensures MatchesImagePattern(filename) <==> HasImageExtension(filename)
  {
    if HasImageExtension(filename) {
      SuffixMatchesPattern(filename);
    }
    if MatchesImagePattern(filename) {
      var i :| 0 <= i < |filename| && DotThenImageName(filename, i);
      PatternMatchIsSuffix(filename, i);
    }
  }

  lemma SuffixMatchesPattern(filename: string)
    requires HasImageExtension(filename)
    ensures MatchesImagePattern(filename)
  {
    var n := |filename|;
    if EndsWith(filename, ".jpg") {
      assert filename[n - 3..] == filename[n - 4..][1..];
      assert DotThenImageName(filename, n - 4);
    } else if EndsWith(filename, ".jpeg") {
      assert filename[n - 4..] == filename[n - 5..][1..];
      assert DotThenImageName(filename, n - 5);
    } else {
      assert filename[n - 3..] == filename[n - 4..][1..];
      assert DotThenImageName(filename, n - 4);
    }
  }

  lemma PatternMatchIsSuffix(filename: string, i: int)
    requires 0 <= i < |filename| && DotThenImageName(filename, i)
    ensures HasImageExtension(filename)
  {
    var rest := filename[i + 1..];
    assert filename[i..] == ['.'] + rest;
    if rest == "jpg" {
      assert EndsWith(filename, ".jpg");
    } else if rest == "jpeg" {
      assert EndsWith(filename, ".jpeg");
    } else {
      assert EndsWith(filename, ".png");
    }
  }

  /** The upload filter and the size limit: None accepts the file, Some carries the
      message the route's error handler sends. */
  function UploadRejection(filename: string, size: nat): (r: Option<string>)
    ensures r.None? <==> MatchesImagePattern(filename) && size <= MaxAvatarBytes
    ensures !MatchesImagePattern(filename) ==> r == Some(FormatError)
    ensures MatchesImagePattern(filename) && size > MaxAvatarBytes ==> r == Some(TooLargeError)
  {
    ImagePatternIsSuffixTest(filename);
    if !HasImageExtension(filename) then Some(FormatError)
    else if size > MaxAvatarBytes then Some(TooLargeError)
    else None
  }

  /** The test fixture's picture is accepted at the size limit; one byte more is not. */
  lemma UploadSizeExamples()
    ensures UploadRejection("profile-pic.jpg", MaxAvatarBytes).None?
    ensures UploadRejection("profile-pic.jpg", MaxAvatarBytes + 1) == Some(TooLargeError)
  {
    assert EndsWith("profile-pic.jpg", ".jpg") by { assert "profile-pic.jpg"[11..] == ".jpg"; }
  }

  /** The extension test is case-sensitive and wants the dot. */
  lemma UploadFormatExamples()
    ensures UploadRejection("me.JPG", 10) == Some(FormatError)
    ensures UploadRejection("notes.txt", 10) == Some(FormatError)
  {
    assert !EndsWith("me.JPG", ".jpg") by { assert "me.JPG"[2] != ".jpg"[0] || "me.JPG"[3] != ".jpg"[1]; }
    assert !EndsWith("me.JPG", ".jpeg") && !EndsWith("me.JPG", ".png");
    assert !EndsWith("notes.txt", ".jpg") && !EndsWith("notes.txt", ".jpeg") && !EndsWith("notes.txt", ".png");
  }

  // ---------------------------------------------------------------- handlers

  /** POST /users: build the document from the body and save it; a valid document then
      gets its first session token. */
  method SignUp(body: Body, hash: string -> string, isEmail: string -> bool, token: string)
    returns (user: User, reply: Reply)
    ensures fresh(user)
    ensures var d := AssignedAll(NewDoc(), body);
      if !Valid(d, isEmail) then
        reply == BadRequest(Invalid(Violations(d, isEmail))) && user.State() == d
      else
        var issued := WithToken(Hashed(d, hash), token);
        && user.State() == Persisted(issued, hash, isEmail)
        && reply == (if Valid(issued, isEmail) then Created(token) else BadRequest(Invalid(Violations(issued, isEmail))))
    ensures reply.Created? ==> user.tokens == [reply.token]
  {
    AssignedAllKeepsSessions(NewDoc(), body);
    user := new User(body);
    var violations := user.Save(hash, isEmail);
    if violations != {} {
      reply := BadRequest(Invalid(violations));
      return;
    }
    violations := user.IssueToken(token, hash, isEmail);
    if violations != {} {
      reply := BadRequest(Invalid(violations));
      return;
    }
    reply := Created(token);
  }

  /** POST /users/login: `found` is the document the credentials matched, or null. */
  method Login(found: User?, token: string, hash: string -> string, isEmail: string -> bool)
    returns (reply: Reply)
    modifies found
    ensures found == null ==> reply == BadRequest(NoBody)
    ensures found != null ==>
      var issued := WithToken(old(found.State()), token);
      && found.State() == Persisted(issued, hash, isEmail)
      && reply == (if Valid(issued, isEmail) then LoggedIn(token) else BadRequest(NoBody))
    ensures reply.LoggedIn? ==>
      found != null && found.tokens == old(found.tokens) + [reply.token]
  {
    if found == null {
      reply := BadRequest(NoBody);
      return;
    }
    var violations := found.IssueToken(token, hash, isEmail);
    reply := if violations == {} then LoggedIn(token) else BadRequest(NoBody);
  }

  /** POST /users/logout: drop the session the request authenticated with. */
  method Logout(user: User, current: string, hash: string -> string, isEmail: string -> bool)
    returns (reply: Reply)
    modifies user
    ensures user.tokens == Without(old(user.tokens), current)
    ensures var revoked := old(user.State()).(tokens := Without(old(user.tokens), current));
      && user.State() == Persisted(revoked, hash, isEmail)
      && reply == (if Valid(revoked, isEmail) then Sent else ServerError(NoBody))
  {
    user.tokens := Without(user.tokens, current);
    var violations := user.Save(hash, isEmail);
    reply := if violations == {} then Sent else ServerError(NoBody);
  }

  /** POST /users/logoutAll: drop every session. */
  method LogoutAll(user: User, hash: string -> string, isEmail: string -> bool)
    returns (reply: Reply)
    modifies user
    ensures user.tokens == []
    ensures var revoked := old(user.State()).(tokens := []);
      && user.State() == Persisted(revoked, hash, isEmail)
      && reply == (if Valid(revoked, isEmail) then Sent else ServerError(NoBody))
  {
    user.tokens := [];
    var violations := user.Save(hash, isEmail);
    reply := if violations == {} then Sent else ServerError(NoBody);
  }

  /** PATCH /users/me: refuse the whole update if any key is not allowed; otherwise
      assign each key in turn and save, so that the pre-save hook still runs. */
  method UpdateMe(user: User, body: Body, hash: string -> string, isEmail: string -> bool)
    returns (reply: Reply)
    modifies user
    ensures !IsValidOperation(Keys(body)) ==>
      reply == BadRequest(Message(InvalidUpdates)) && unchanged(user)
    ensures IsValidOperation(Keys(body)) ==>
      var patched := AssignedAll(old(user.State()), body);
      && user.State() == Persisted(patched, hash, isEmail)
      && reply == (if Valid(patched, isEmail) then SentUser(user.State())
                   else ServerError(Invalid(Violations(patched, isEmail))))
  {
    var updates := Keys(body);
    if !IsValidOperation(updates) {
      reply := BadRequest(Message(InvalidUpdates));
      return;
    }
    var i := 0;
    while i < |body|
      invariant 0 <= i <= |body|
      invariant user.State() == AssignedAll(old(user.State()), body[..i])
    {
      assert body[..i + 1][..i] == body[..i];
      user.Assign(body[i].0, body[i].1);
      i := i + 1;
    }
    assert body[..|body|] == body;
    var violations := user.Save(hash, isEmail);
    reply := if violations == {} then SentUser(user.State()) else ServerError(Invalid(violations));
  }

  /** POST /users/me/avatar: the upload filter and size limit first (a refusal goes to
      the route's error handler, which answers 404); an accepted file is normalised,
      stored and saved. */
  method UploadAvatar(user: User, filename: string, file: seq<bv8>,
                      normalize: seq<bv8> -> seq<bv8>,
                      hash: string -> string, isEmail: string -> bool)
    returns (reply: Reply)
    modifies user
    ensures UploadRejection(filename, |file|).Some? ==>
      reply == NotFound(Message(UploadRejection(filename, |file|).value)) && unchanged(user)
    ensures UploadRejection(filename, |file|).None? ==>
      var withAvatar := old(user.State()).(avatar := Some(normalize(file)));
      && user.State() == Persisted(withAvatar, hash, isEmail)
      && reply == (if Valid(withAvatar, isEmail) then Sent else Unanswered)
  {
    var rejection := UploadRejection(filename, |file|);
    if rejection.Some? {
      reply := NotFound(Message(rejection.value));
      return;
    }
    user.avatar := Some(normalize(file));
    var violations := user.Save(hash, isEmail);
    reply := if violations == {} then Sent else Unanswered;
  }

  /** DELETE /users/me/avatar */
  method ClearAvatar(user: User, hash: string -> string, isEmail: string -> bool)
    returns (reply: Reply)
    modifies user
    ensures user.avatar == None
    ensures var cleared := old(user.State()).(avatar := None);
      && user.State() == Persisted(cleared, hash, isEmail)
      && reply == (if Valid(cleared, isEmail) then Sent else Unanswered)
  {
    user.avatar := None;
    var violations := user.Save(hash, isEmail);
    reply := if violations == {} then Sent else Unanswered;
  }

  /** GET /users/:id/avatar: `found` is the document with that id, or null. A missing
      user and a missing avatar give the same answer. */
  method FetchAvatar(found: User?) returns (reply: Reply)
    ensures reply.Image? <==> found != null && found.avatar.Some?
    ensures reply.Image? ==> reply == Image(PngType, found.avatar.value)
    ensures !reply.Image? ==> reply == NotFound(NoBody)
  {
    if found == null || found.avatar.None? {
      reply := NotFound(NoBody);
      return;
    }
    reply := Image(PngType, found.avatar.value);
  }

  /** An accepted upload is what the download then returns; after a removal whose save
      succeeded the download finds nothing. */
  method AvatarRoundTrip(user: User, filename: string, file: seq<bv8>,
                         normalize: seq<bv8> -> seq<bv8>,
                         hash: string -> string, isEmail: string -> bool)
    returns (uploaded: Reply, fetched: Reply, cleared: Reply, fetchedAfterClear: Reply)
    modifies user
    ensures uploaded == Sent ==> fetched == Image(PngType, normalize(file))
    ensures uploaded.NotFound? ==> fetched == (if old(user.avatar).Some? then Image(PngType, old(user.avatar).value) else NotFound(NoBody))
    ensures cleared == Sent ==> fetchedAfterClear == NotFound(NoBody)
  {
    uploaded := UploadAvatar(user, filename, file, normalize, hash, isEmail);
    fetched := FetchAvatar(user);
    cleared := ClearAvatar(user, hash, isEmail);
    fetchedAfterClear := FetchAvatar(user);
  }
}
