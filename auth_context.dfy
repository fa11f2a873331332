/** The session store of `AuthProvider`: an authentication token and an
    opaque user record, kept in memory and mirrored in two `localStorage`
    keys. */
module Auth {
  import opened Wrappers

  /** The two storage keys the provider reads and writes. */
  const TokenKey: string := "@AgendaENE: token"
  const UserKey: string := "@AgendaENE: user"

  /** `localStorage`: string keys to string values. */
  type Storage = map<string, string>

  /** `AuthState` when it is set: token and user always travel together;
      the empty state `{}` is `None`. */
  datatype Session<U> = Session(token: string, user: U)

  /** `JSON.stringify` and `JSON.parse` for the user record; `parse` yields
      `None` where `JSON.parse` would throw. */
  datatype UserCodec<!U> = UserCodec(stringify: U -> string, parse: string -> Option<U>)

  /** What the model assumes of the JSON codec: a stringified user parses
      back to itself, and its text is never empty. */
  ghost predicate Lawful<U(!new)>(codec: UserCodec<U>)
  {
    forall u :: codec.parse(codec.stringify(u)) == Some(u) && codec.stringify(u) != ""
  }

  /** The reply of `api.post('sessions', ...)`: resolved with a token and a
      user, or rejected. */
  datatype Reply<U> = Accepted(token: string, user: U) | Rejected

  /** The exception the restore initialiser lets escape. */
  datatype RestoreError = MalformedUser

  /** `localStorage.getItem`: `null` for a missing key. */
  function GetItem(storage: Storage, key: string): Option<string>
  {
    if key in storage then Some(storage[key]) else None
  }

  /** JavaScript truthiness of a `getItem` result: neither `null` nor `""`. */
  predicate Truthy(item: Option<string>)
  {
    item.Some? && item.value != ""
  }

  /** Both session keys are present with non-empty values. */
  predicate HasSessionKeys(storage: Storage)
  {
    TokenKey in storage && storage[TokenKey] != "" &&
    UserKey in storage && storage[UserKey] != ""
  }

  /** The `useState` initialiser: `{token, user: JSON.parse(user)}` when both
      items are truthy, `{}` otherwise; a user text that does not parse
      throws. */
  function Restore<U>(storage: Storage, codec: UserCodec<U>): (r: Result<Option<Session<U>>, RestoreError>)
    ensures r == Success(None) <==> !HasSessionKeys(storage)
    ensures r.Failure? <==> HasSessionKeys(storage) && codec.parse(storage[UserKey]).None?
    ensures r.Success? && r.value.Some? ==>
      HasSessionKeys(storage) &&
      r.value.value.token == storage[TokenKey] &&
      codec.parse(storage[UserKey]) == Some(r.value.value.user)
  {
    var token, user := GetItem(storage, TokenKey), GetItem(storage, UserKey);
    if Truthy(token) && Truthy(user) then
      match codec.parse(user.value)
      case Some(u) => Success(Some(Session(token.value, u)))
      case None => Failure(MalformedUser)
    else
      Success(None)
  }

  /** The storage after `signIn`'s two `setItem` calls. */
  function SignedInStorage(storage: Storage, token: string, userText: string): Storage
  {
    storage[TokenKey := token][UserKey := userText]
  }

  /** The storage after `signOut`'s two `removeItem` calls. */
  function SignedOutStorage(storage: Storage): Storage
  {
    storage - {TokenKey, UserKey}
  }

  /** The in-memory session is what the storage holds: a set session is
      stored under both keys; an empty one is what a restore would give. */
  ghost predicate Backed<U>(session: Option<Session<U>>, storage: Storage, codec: UserCodec<U>)
  {
    match session
    case None => Restore(storage, codec) == Success(None)
    case Some(s) =>
      TokenKey in storage && storage[TokenKey] == s.token &&
      UserKey in storage && storage[UserKey] != "" &&
      codec.parse(storage[UserKey]) == Some(s.user)
  }

  /** After a successful sign-in, a fresh restore from storage yields the
      same token and user, provided the token is not empty. */
  lemma SignInThenRestore<U(!new)>(storage: Storage, codec: UserCodec<U>, token: string, user: U)
    requires Lawful(codec) && token != ""
    ensures Restore(SignedInStorage(storage, token, codec.stringify(user)), codec)
            == Success(Some(Session(token, user)))
  {
  }

  /** An empty token is stored but not restored: the truthiness test of the
      initialiser treats `""` as absent. */
  lemma EmptyTokenIsNotRestored<U>(storage: Storage, codec: UserCodec<U>, user: U)
    ensures Restore(SignedInStorage(storage, "", codec.stringify(user)), codec) == Success(None)
  {
  }

  /** A stored session is restored as it is held in memory whenever its
      token is not empty. */
  lemma BackedSessionRestores<U>(s: Session<U>, storage: Storage, codec: UserCodec<U>)
    requires Backed(Some(s), storage, codec) && s.token != ""
    ensures Restore(storage, codec) == Success(Some(s))
  {
  }

  /** `signOut` leaves a storage that restores to the empty state, touches
      no other key, and a second `signOut` changes nothing more. */
  lemma SignOutProperties<U>(storage: Storage, codec: UserCodec<U>)
    ensures TokenKey !in SignedOutStorage(storage) && UserKey !in SignedOutStorage(storage)
    ensures forall k | k != TokenKey && k != UserKey ::
      GetItem(SignedOutStorage(storage), k) == GetItem(storage, k)
    ensures SignedOutStorage(SignedOutStorage(storage)) == SignedOutStorage(storage)
    ensures Restore(SignedOutStorage(storage), codec) == Success(None)
  {
  }

  /** The two `setItem` calls are separate writes: if the second one throws,
      the storage holds the new token beside the previous user text, and a
      reload restores a session mixing the two sign-ins. */
  lemma TokenOnlyWriteMixesSessions<U>(storage: Storage, codec: UserCodec<U>, token: string, previous: U)
    requires HasSessionKeys(storage) && codec.parse(storage[UserKey]) == Some(previous)
    requires token != ""
    ensures Restore(storage[TokenKey := token], codec) == Success(Some(Session(token, previous)))
  {
  }

  /** From a storage holding no user text, a token-only write leaves a
      storage that restores to the empty state, so a signed-out provider
      stays backed by it. */
  lemma TokenOnlyWriteFromSignedOut<U>(storage: Storage, codec: UserCodec<U>, token: string)
    requires UserKey !in storage
    ensures Restore(storage[TokenKey := token], codec) == Success(None)
    ensures Backed(None, storage[TokenKey := token], codec)
  {
  }

  /** `signIn` touches no key but the two session keys. */
  lemma SignInKeepsOtherKeys(storage: Storage, token: string, userText: string)
    ensures forall k | k != TokenKey && k != UserKey ::
      GetItem(SignedInStorage(storage, token, userText), k) == GetItem(storage, k)
  {
  }

  /** `AuthProvider`: the `data` state and the `localStorage` it mirrors. */
  class AuthProvider<U(!new)> {
    var storage: Storage
    var session: Option<Session<U>>
    const codec: UserCodec<U>

    ghost predicate Valid()
      reads this
    {
      Lawful(codec) && Backed(session, storage, codec)
    }

    /** Mounting the provider: the state is restored from storage. A user
        text that does not parse makes the initialiser throw, so no provider
        comes into being from such a storage. */
    constructor (initial: Storage, codec: UserCodec<U>)
      requires Lawful(codec)
      requires Restore(initial, codec).Success?
      ensures Valid()
      ensures this.codec == codec && storage == initial
      ensures session == Restore(initial, codec).value
    {
      storage := initial;
      session := Restore(initial, codec).value;
      this.codec := codec;
    }

    /** The `user` the context exposes: `data.user`, undefined when signed
        out. While the provider is valid, a set user is the one the stored
        user text parses to, and an unset one means storage restores to the
        empty state. */
    function User(): (user: Option<U>)
      reads this
      ensures Valid() && user.Some? ==> UserKey in storage && codec.parse(storage[UserKey]) == user
      ensures Valid() && user.None? ==> Restore(storage, codec) == Success(None)
    {
      match session
      case Some(s) => Some(s.user)
      case None => None
    }

    /** `signIn`: a rejected reply propagates before any write; an accepted
        one writes the token, then the stringified user, then sets the state. */
    method SignIn(reply: Reply<U>) returns (signedIn: bool)
      requires Valid()
      modifies this
      ensures Valid()
      ensures signedIn <==> reply.Accepted?
      ensures reply.Accepted? ==> User() == Some(reply.user)
      ensures reply.Rejected? ==> User() == old(User())
      ensures reply.Rejected? ==> storage == old(storage) && session == old(session)
      ensures reply.Accepted? ==>
        storage == SignedInStorage(old(storage), reply.token, codec.stringify(reply.user)) &&
        session == Some(Session(reply.token, reply.user))
    {
      match reply
      case Rejected =>
        signedIn := false;
      case Accepted(token, user) =>
        storage := storage[TokenKey := token];
        storage := storage[UserKey := codec.stringify(user)];
        session := Some(Session(token, user));
        signedIn := true;
    }

    /** `signOut`: removes both keys and clears the state; it cannot fail. */
    method SignOut()
      requires Valid()
      modifies this
      ensures Valid()
      ensures storage == SignedOutStorage(old(storage)) && session == None
      ensures User() == None
    {
      storage := storage - {TokenKey};
      storage := storage - {UserKey};
      session := None;
    }
  }
}
