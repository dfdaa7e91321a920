/**
 * The development-mode authentication context: the signed-in user, the loading flag and the
 * browser's key/value storage, which holds the user under the key `user`. The simulated network
 * delay is not modelled; each operation is one step.
 */
module Auth {
  import opened Wrappers
  import opened Strings

  datatype User = User(id: int, nome: string, email: string, perfil: Option<string>,
                       role: string, telefone: Option<string>)

  datatype SignupData = SignupData(nome: string, email: string, senha: string,
                                   telefone: Option<string>, perfil: string)

  const USER_KEY := "user"
  const REQUIRED_MESSAGE := "Email e senha são obrigatórios"
  const LOGIN_SUCCESS_MESSAGE := "Login realizado com sucesso!"
  const SIGNUP_SUCCESS_MESSAGE := "Cadastro realizado com sucesso!"

  /** The user name derived from an e-mail: the part before the first `@`, first letter upper case. */
  function DerivedNome(email: string): (nome: string)
    ensures var local := Split(email, '@')[0];
      |nome| == |local| && (local != "" ==> nome[0] == AsciiUpperChar(local[0]) && nome[1..] == local[1..])
  {
    var local := Split(email, '@')[0];
    if local == "" then "" else [AsciiUpperChar(local[0])] + local[1..]
  }

  /** The derived name has no `@`, and lowering its first letter gives back the start of the
    * e-mail up to its first `@`. */
  lemma DerivedNomeOfEmail(email: string)
    ensures var nome := DerivedNome(email);
      |nome| <= |email| && (|nome| < |email| ==> email[|nome|] == '@')
      && '@' !in email[..|nome|]
      && (nome != "" ==> nome[1..] == email[1..|nome|]
                         && nome[0] == AsciiUpperChar(email[0]))
  {
    SplitFirstField(email, '@');
  }

  lemma DerivedNomeExample()
    ensures DerivedNome("ana@escola") == "Ana"
  {
    var local, domain := "ana", "escola";
    var email := local + ['@'] + domain;
    assert email == "ana@escola";
    SplitAfterField(local, '@', domain);
    assert Split(email, '@')[0] == local;
  }

  /** The user the development login accepts for an e-mail. */
  function DevUser(email: string): User {
    User(1, DerivedNome(email), email, Some("administrador"), "admin", None)
  }

  class AuthProvider {
    var user: Option<User>
    var loading: bool
    /** The browser's local storage, as seen by this context. */
    var store: map<string, User>

    /** The initial render: nobody signed in, still loading. */
    constructor (storage: map<string, User>)
      ensures user == None && loading && store == storage
    {
      user := None;
      loading := true;
      store := storage;
    }

    /** `isAuthenticated`. */
    function IsAuthenticated(): bool
      reads this
    {
      user.Some?
    }

    /** The mount effect: restore the saved user, if any, then stop loading. */
    method Mount()
      modifies this
      ensures USER_KEY in store ==> user == Some(store[USER_KEY])
      ensures USER_KEY !in store ==> user == old(user)
      ensures !loading && store == old(store)
    {
      if USER_KEY in store {
        user := Some(store[USER_KEY]);
      }
      loading := false;
    }

    /** Any non-empty e-mail and password sign in as an administrator. */
    method Login(email: string, password: string) returns (success: bool, message: string)
      modifies this
      ensures success <==> email != "" && password != ""
      ensures !success ==> message == REQUIRED_MESSAGE && user == old(user) && store == old(store)
      ensures success ==> message == LOGIN_SUCCESS_MESSAGE && user == Some(DevUser(email))
                          && store == old(store)[USER_KEY := DevUser(email)]
      ensures !loading
    {
      loading := true;
      if email == "" || password == "" {
        loading := false;
        return false, REQUIRED_MESSAGE;
      }
      var userData := DevUser(email);
      user := Some(userData);
      store := store[USER_KEY := userData];
      loading := false;
      return true, LOGIN_SUCCESS_MESSAGE;
    }

    /** Forget the user, in memory and in storage. */
    method Logout()
      modifies this
      ensures user == None && store == old(store) - {USER_KEY} && loading == old(loading)
    {
      user := None;
      store := store - {USER_KEY};
    }

    /** The development sign-up always succeeds and signs nobody in. */
    method Signup(data: SignupData) returns (success: bool, message: string)
      modifies this
      ensures success && message == SIGNUP_SUCCESS_MESSAGE
      ensures user == old(user) && store == old(store) && !loading
    {
      loading := true;
      loading := false;
      return true, SIGNUP_SUCCESS_MESSAGE;
    }

    /** A page reload: memory is lost, storage is kept, and the mount effect runs again. */
    method Reload()
      modifies this
      ensures user == if USER_KEY in store then Some(store[USER_KEY]) else None
      ensures !loading && store == old(store)
    {
      user := None;
      loading := true;
      Mount();
    }
  }
}
