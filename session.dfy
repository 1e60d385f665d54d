/** The desktop client's record of who is signed in. */
module Session {
  import opened Common

  /** Python truthiness of an optional string: present and non-empty. */
  predicate Truthy(s: Option<string>) {
    s.Some? && s.value != []
  }

  /** `SessionState`: four optional fields, all None until a sign-in fills them. */
  class SessionState {
    var uid: Option<string>
    var email: Option<string>
    var idToken: Option<string>
    var refreshToken: Option<string>

    /** The dataclass's default construction. */
    constructor ()
      ensures uid == None && email == None && idToken == None && refreshToken == None
      ensures !IsAuthenticated()
    {
      uid, email, idToken, refreshToken := None, None, None, None;
    }

    /** The dataclass's construction with every field given. */
    constructor WithFields(uid: Option<string>, email: Option<string>, idToken: Option<string>, refreshToken: Option<string>)
      ensures this.uid == uid && this.email == email && this.idToken == idToken && this.refreshToken == refreshToken
      ensures IsAuthenticated() <==> Truthy(uid) && Truthy(idToken)
    {
      this.uid, this.email, this.idToken, this.refreshToken := uid, email, idToken, refreshToken;
    }

    /** `is_authenticated`: a user id and an id token, both non-empty; the e-mail and
        the refresh token play no part. */
    predicate IsAuthenticated()
      reads this
    {
      Truthy(uid) && Truthy(idToken)
    }

    /** `clear()`: forget all four fields, which signs the user out. */
    method Clear()
      modifies this
      ensures uid == None && email == None && idToken == None && refreshToken == None
      ensures !IsAuthenticated()
    {
      uid := None;
      email := None;
      idToken := None;
      refreshToken := None;
    }
  }

  /** Only the user id and the id token decide whether a session is signed in. */
  lemma {:induction false} AuthenticationIgnoresOtherFields(s: SessionState, t: SessionState)
    requires s.uid == t.uid && s.idToken == t.idToken
    ensures s.IsAuthenticated() == t.IsAuthenticated()
    ensures s.IsAuthenticated() ==> s.uid.Some? && s.uid.value != [] && s.idToken.Some? && s.idToken.value != []
  {
  }
}
