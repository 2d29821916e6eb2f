/** The authentication provider: the current user and the "has signed up
    before" flag, mirrored into the browser's string-keyed storage. */
module Auth {
  import opened Wrappers

  datatype User = User(name: string, email: string)

  /** A storage value: a serialised user, or any other text. */
  datatype Stored = UserJson(user: User) | Raw(text: string)

  /** The browser's `localStorage`, as a map from key to value. */
  type Storage = map<string, Stored>

  const UserKey := "user"
  const SignedUpKey := "hasSignedUpBefore"
  const TrueText := "true"

  /** The provider's in-memory state. */
  datatype AuthState = AuthState(user: Option<User>, hasSignedUpBefore: bool)

  /** The in-memory state together with the storage it mirrors. */
  datatype Session = Session(state: AuthState, storage: Storage)

  /** The state before the storage has been read. */
  const Initial := AuthState(None, false)

  /** The user the storage holds under the user key, if any. */
  function StoredUser(storage: Storage): Option<User> {
    if UserKey in storage && storage[UserKey].UserJson? then Some(storage[UserKey].user) else None
  }

  /** The storage records that the browser has signed up before. */
  predicate StoredFlag(storage: Storage) {
    SignedUpKey in storage && storage[SignedUpKey] == Raw(TrueText)
  }

  /** The in-memory state says what the storage says. */
  predicate Consistent(sess: Session) {
    sess.state.user == StoredUser(sess.storage)
    && (sess.state.hasSignedUpBefore <==> StoredFlag(sess.storage))
  }

  /** The mount effect: adopt a stored user if there is one, and raise the
      flag only when the stored flag is exactly the text "true". Anything else
      leaves the corresponding field as it was. */
  function Load(st: AuthState, storage: Storage): (r: AuthState)
    ensures StoredUser(storage).Some? ==> r.user == StoredUser(storage)
    ensures StoredUser(storage).None? ==> r.user == st.user
    ensures r.hasSignedUpBefore <==> st.hasSignedUpBefore || StoredFlag(storage)
  {
    AuthState(
      if StoredUser(storage).Some? then StoredUser(storage) else st.user,
      if StoredFlag(storage) then true else st.hasSignedUpBefore)
  }

  /** Provider start-up: the initial state, then the mount effect. The storage
      is only read. */
  function Mount(storage: Storage): (r: Session)
    ensures Consistent(r)
    ensures r.storage == storage
  {
    Session(Load(Initial, storage), storage)
  }

  /** `login`: set the user and write it under the user key. */
  function Login(sess: Session, u: User): (r: Session)
    ensures r.state.user == Some(u)
    ensures r.state.hasSignedUpBefore == sess.state.hasSignedUpBefore
    ensures r.storage.Keys == sess.storage.Keys + {UserKey}
    ensures r.storage[UserKey] == UserJson(u)
    ensures forall k :: k in sess.storage && k != UserKey ==> r.storage[k] == sess.storage[k]
  {
    Session(sess.state.(user := Some(u)), sess.storage[UserKey := UserJson(u)])
  }

  /** `signup`: raise the flag and write "true" under its key, then log the user in. */
  function Signup(sess: Session, u: User): (r: Session)
    ensures r.state == AuthState(Some(u), true)
    ensures r.storage.Keys == sess.storage.Keys + {UserKey, SignedUpKey}
    ensures r.storage[UserKey] == UserJson(u)
    ensures r.storage[SignedUpKey] == Raw(TrueText)
    ensures forall k :: k in sess.storage && k != UserKey && k != SignedUpKey ==> r.storage[k] == sess.storage[k]
  {
    var flagged := Session(sess.state.(hasSignedUpBefore := true), sess.storage[SignedUpKey := Raw(TrueText)]);
    Session(flagged.state.(user := Some(u)), flagged.storage[UserKey := UserJson(u)])
  }

  /** `logout`: clear the user and delete the user key; the flag and its key stay. */
  function Logout(sess: Session): (r: Session)
    ensures r.state.user == None
    ensures r.state.hasSignedUpBefore == sess.state.hasSignedUpBefore
    ensures r.storage.Keys == sess.storage.Keys - {UserKey}
    ensures forall k :: k in r.storage ==> r.storage[k] == sess.storage[k]
  {
    Session(sess.state.(user := None), sess.storage - {UserKey})
  }

  /** The three operations the provider exposes. */
  datatype Op = LoginOp(u: User) | SignupOp(u: User) | LogoutOp

  function Apply(sess: Session, op: Op): Session {
    match op
    case LoginOp(u) => Login(sess, u)
    case SignupOp(u) => Signup(sess, u)
    case LogoutOp => Logout(sess)
  }

  /** The session after performing `ops` in order. */
  function Run(sess: Session, ops: seq<Op>): Session
    decreases |ops|
  {
    if |ops| == 0 then sess else Run(Apply(sess, ops[0]), ops[1..])
  }

  /** Every operation keeps the in-memory state consistent with storage and
      never lowers the flag. */
  lemma ApplyPreserves(sess: Session, op: Op)
    requires Consistent(sess)
    ensures Consistent(Apply(sess, op))
    ensures sess.state.hasSignedUpBefore ==> Apply(sess, op).state.hasSignedUpBefore
  {
  }

  /** The flag is monotone over any sequence of operations, and consistency
      with storage survives all of them. */
  lemma {:induction false} RunPreserves(sess: Session, ops: seq<Op>)
    requires Consistent(sess)
    ensures Consistent(Run(sess, ops))
    ensures sess.state.hasSignedUpBefore ==> Run(sess, ops).state.hasSignedUpBefore
    decreases |ops|
  {
    if |ops| > 0 {
      ApplyPreserves(sess, ops[0]);
      RunPreserves(Apply(sess, ops[0]), ops[1..]);
    }
  }

  /** Once a signup happened, the flag stays raised whatever follows. */
  lemma {:induction false} FlagStaysAfterSignup(sess: Session, u: User, ops: seq<Op>)
    ensures Run(sess, [SignupOp(u)] + ops).state.hasSignedUpBefore
  {
    assert ([SignupOp(u)] + ops)[1..] == ops;
    FlagMonotone(Signup(sess, u), ops);
  }

  /** The flag is monotone over any sequence of operations, consistent or not. */
  lemma {:induction false} FlagMonotone(sess: Session, ops: seq<Op>)
    ensures sess.state.hasSignedUpBefore ==> Run(sess, ops).state.hasSignedUpBefore
    decreases |ops|
  {
    if |ops| > 0 {
      FlagMonotone(Apply(sess, ops[0]), ops[1..]);
    }
  }

  /** A session reloaded from its own storage comes back the same. */
  lemma ReloadRestores(sess: Session)
    requires Consistent(sess)
    ensures Mount(sess.storage) == sess
  {
  }
}
