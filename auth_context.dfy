/** The session context (src/context/AuthContext.tsx): the signed-in user,
    the session token and the loading flag, kept in step with the token
    stored in `localStorage` under "nv_token". */
module AuthContext {
  import opened Common
  import opened Types
  import Api

  /** The body of a successful login response. */
  datatype LoginResponse = LoginResponse(user: User, token: string)

  /** JavaScript truthiness of a possibly missing string. */
  predicate Truthy(s: Option<string>) {
    s.Some? && s.value != ""
  }

  class AuthProvider {
    var user: Option<User>
    var token: Option<string>
    var loading: bool
    const storage: LocalStorage

    /** The token in memory is the stored one. */
    predicate InStep()
      reads this, storage
    {
      token == storage.GetItem(Api.TokenKey)
    }

    /** The first render: no user yet, the stored token, still loading. */
    constructor (storage: LocalStorage)
      ensures this.storage == storage
      ensures user == None && token == storage.GetItem(Api.TokenKey) && loading
      ensures InStep()
    {
      this.storage := storage;
      user := None;
      token := storage.GetItem(Api.TokenKey);
      loading := true;
    }

    /** The mount effect. With a truthy token it asks for the current user
        (`me` is what that request produced): success sets the user, failure
        logs out. Without one it only stops loading. Returns the calls made. */
    method Init(me: Outcome<User>) returns (calls: seq<Api.ApiCall>)
      requires InStep()
      modifies this, storage
      ensures InStep() && !loading
      ensures calls == if Truthy(old(token)) then [Api.GetMe] else []
      ensures !Truthy(old(token)) ==>
        user == old(user) && token == old(token) && storage.items == old(storage.items)
      ensures Truthy(old(token)) && me.Ok? ==>
        user == Some(me.value) && token == old(token) && storage.items == old(storage.items)
      ensures Truthy(old(token)) && me.Failed? ==>
        user == None && token == None && storage.items == old(storage.items) - {Api.TokenKey}
    {
      if token.Some? && token.value != "" {
        calls := [Api.GetMe];
        match me {
          case Ok(u) =>
            user := Some(u);
          case Failed(_) =>
            Logout();
        }
        loading := false;
      } else {
        calls := [];
        loading := false;
      }
    }

    /** `login(email, password)`: on success stores the returned token and
        takes token and user from the response, so that every later request
        carries it; a rejected request leaves everything as it was (the
        rejection reaches the caller, `ok` false). */
    method Login(email: string, password: string, response: Outcome<LoginResponse>)
      returns (calls: seq<Api.ApiCall>, ok: bool)
      requires InStep()
      modifies this, storage
      ensures InStep() && loading == old(loading)
      ensures calls == [Api.LoginUser(email, password)]
      ensures ok <==> response.Ok?
      ensures response.Ok? ==>
        storage.items == old(storage.items)[Api.TokenKey := response.value.token]
        && token == Some(response.value.token) && user == Some(response.value.user)
      ensures response.Failed? ==>
        storage.items == old(storage.items) && token == old(token) && user == old(user)
      ensures response.Ok? && response.value.token != "" ==>
        Api.AuthorizationHeader(storage.GetItem(Api.TokenKey)) == Some(Api.BearerPrefix + response.value.token)
    {
      calls := [Api.LoginUser(email, password)];
      match response {
        case Ok(r) =>
          storage.SetItem(Api.TokenKey, r.token);
          token := Some(r.token);
          user := Some(r.user);
          ok := true;
        case Failed(_) =>
          ok := false;
      }
    }

    /** `logout()`: forgets the stored token, the token and the user; later
        requests go out without an Authorization header. */
    method Logout()
      modifies this, storage
      ensures storage.items == old(storage.items) - {Api.TokenKey}
      ensures token == None && user == None && loading == old(loading)
      ensures InStep()
      ensures Api.AuthorizationHeader(storage.GetItem(Api.TokenKey)) == None
    {
      storage.RemoveItem(Api.TokenKey);
      token := None;
      user := None;
    }

    /** `updateUser(u)`: replaces the user and nothing else. */
    method UpdateUser(u: User)
      modifies this
      ensures user == Some(u) && token == old(token) && loading == old(loading)
      ensures InStep() <==> old(InStep())
    {
      user := Some(u);
    }
  }
}
