/**
 * `ClientInterfaceProvider`: the client/interface scope of the application
 * (the client list, the interfaces of the selected client, both selections),
 * the authentication flag and roles, and the request controller that is meant
 * to suppress stale client lists.
 *
 * Each asynchronous operation is split at its `await`: `BeginRefreshClients`
 * runs up to the request, a `Complete…` method runs when the answer arrives.
 * Abort controllers are numbered tickets: `current` is the controller in
 * `requestRef`, `aborted` the tickets whose controller was aborted.
 */
module ClientInterfaceContext {
  import opened Wrappers
  import opened Text
  import opened Browser
  import opened JsError
  import SessionTokens
  import AuthService
  import opened Types

  const SELECTED_CLIENT_KEY: string := "selectedClientId"
  const SELECTED_INTERFACE_KEY: string := "selectedInterfaceId"
  const AUTH_FAILED: string := "Authentication failed. Please log in again."
  const NO_CLIENT_PERMISSION: string := "You do not have permission to access client data."
  const NO_INTERFACE_PERMISSION: string := "You do not have permission to access interface data."
  const INITIAL_LOAD_FAILED: string := "Failed to load initial clients"

  /** A page of clients; `content` is `None` when the field is missing. */
  datatype ClientPage = ClientPage(content: Option<seq<Client>>)

  /** `err.name === 'AbortError'`. */
  predicate IsAbortError(e: Thrown) {
    e.ObjectError? && e.name == Some("AbortError")
  }

  /** The message of a failed load: the server's message, the error's own, or the fallback. */
  function LoadFailure(what: string, e: Thrown): string {
    "Failed to load " + what + ": " + OrElse(DataMessage(e), Message(e), "Failed to load " + what)
  }

  class ClientInterfaceState {
    var clients: seq<Client>
    var interfaces: seq<Interface>
    var selectedClient: Option<Client>
    var selectedInterface: Option<Interface>
    var loading: bool
    var error: Option<string>
    var isAuthenticated: bool
    var userRoles: seq<string>
    var current: Option<nat>
    var aborted: set<nat>
    var nextTicket: nat

    /** Tickets are handed out in order, and the controller in `requestRef` is never an aborted one. */
    ghost predicate Valid()
      reads this
    {
      (current.Some? ==> current.value < nextTicket && current.value !in aborted)
      && (forall t | t in aborted :: t < nextTicket)
    }

    /** No clients, no interfaces, no selection. */
    predicate ScopeCleared()
      reads this
    {
      clients == [] && interfaces == [] && selectedClient.None? && selectedInterface.None?
    }

    constructor()
      ensures Valid() && ScopeCleared()
      ensures !loading && error.None? && !isAuthenticated && userRoles == [] && current.None?
    {
      clients := [];
      interfaces := [];
      selectedClient := None;
      selectedInterface := None;
      loading := false;
      error := None;
      isAuthenticated := false;
      userRoles := [];
      current := None;
      aborted := {};
      nextTicket := 0;
    }

    /** `clearAllData()`: empties the scope and the error. */
    method ClearAllData()
      modifies this
      ensures ScopeCleared() && error.None?
      ensures loading == old(loading) && isAuthenticated == old(isAuthenticated) && userRoles == old(userRoles)
      ensures current == old(current) && aborted == old(aborted) && nextTicket == old(nextTicket)
    {
      clients := [];
      interfaces := [];
      selectedClient := None;
      selectedInterface := None;
      error := None;
    }

    /** `hasRole(role)`: the role is among the roles from the last token validation. */
    function HasRole(role: string): (r: bool)
      reads this
    {
      role in userRoles
    }

    /**
     * `setSelectedClient(client)`: selects the client and always drops the
     * selected interface; a client's id is persisted, and no client removes both
     * persisted selections.
     */
    method SetSelectedClient(client: Option<Client>, storage: LocalStorage)
      modifies this, storage
      ensures selectedClient == client && selectedInterface.None?
      ensures client.Some? ==> storage.items == old(storage.items)[SELECTED_CLIENT_KEY := IntToString(client.value.id)]
      ensures client.None? ==> storage.items == old(storage.items) - {SELECTED_CLIENT_KEY, SELECTED_INTERFACE_KEY}
      ensures clients == old(clients) && interfaces == old(interfaces) && loading == old(loading)
      ensures error == old(error) && isAuthenticated == old(isAuthenticated) && userRoles == old(userRoles)
      ensures current == old(current) && aborted == old(aborted) && nextTicket == old(nextTicket)
    {
      selectedClient := client;
      selectedInterface := None;
      if client.Some? {
        storage.SetItem(SELECTED_CLIENT_KEY, IntToString(client.value.id));
      } else {
        storage.RemoveItem(SELECTED_CLIENT_KEY);
        storage.RemoveItem(SELECTED_INTERFACE_KEY);
      }
    }

    /**
     * `refreshClients` up to its request: nothing happens unless authenticated
     * and not loading; otherwise the previous controller is aborted, a new one
     * becomes current, and loading starts. The new controller's ticket is
     * returned.
     */
    method BeginRefreshClients() returns (ticket: Option<nat>)
      requires Valid()
      modifies this
      ensures Valid()
      ensures !old(isAuthenticated) || old(loading) ==> ticket.None? && unchanged(this)
      ensures old(isAuthenticated) && !old(loading) ==>
                ticket == Some(old(nextTicket)) && current == ticket && loading
                && nextTicket == old(nextTicket) + 1
                && aborted == old(aborted) + (if old(current).Some? then {old(current).value} else {})
                && clients == old(clients) && interfaces == old(interfaces)
                && selectedClient == old(selectedClient) && selectedInterface == old(selectedInterface)
                && error == old(error) && isAuthenticated && userRoles == old(userRoles)
    {
      if !isAuthenticated || loading {
        return None;
      }
      if current.Some? {
        aborted := aborted + {current.value};
      }
      ticket := Some(nextTicket);
      current := ticket;
      nextTicket := nextTicket + 1;
      loading := true;
    }

    /** The handling of a failed client load shared by both completions: 401 ends the session, 403 and the rest only set the error. */
    method FailClients(e: Thrown)
      modifies this
      ensures Status(e) == Some(401) ==> !isAuthenticated && ScopeCleared() && error == Some(AUTH_FAILED)
      ensures Status(e) == Some(403) ==>
                error == Some(NO_CLIENT_PERMISSION) && isAuthenticated == old(isAuthenticated)
                && clients == old(clients) && interfaces == old(interfaces)
                && selectedClient == old(selectedClient) && selectedInterface == old(selectedInterface)
      ensures Status(e) != Some(401) && Status(e) != Some(403) ==>
                error == Some(LoadFailure("clients", e)) && isAuthenticated == old(isAuthenticated)
                && clients == old(clients) && interfaces == old(interfaces)
                && selectedClient == old(selectedClient) && selectedInterface == old(selectedInterface)
      ensures loading == old(loading) && userRoles == old(userRoles)
      ensures current == old(current) && aborted == old(aborted) && nextTicket == old(nextTicket)
    {
      if Status(e) == Some(401) {
        isAuthenticated := false;
        ClearAllData();
        error := Some(AUTH_FAILED);
      } else if Status(e) == Some(403) {
        error := Some(NO_CLIENT_PERMISSION);
      } else {
        error := Some(LoadFailure("clients", e));
      }
    }

    /**
     * `refreshClients` after its request, as written. The staleness test reads
     * the controller in `requestRef`, which is the newest one and never aborted,
     * so every answer is applied, whichever request it belongs to. The `finally`
     * block ends loading and forgets the controller whenever one is current.
     */
    method CompleteRefreshClientsAsWritten(ticket: nat, outcome: Outcome<ClientPage>)
      returns (r: Result<Option<ClientPage>, Thrown>)
      requires Valid()
      modifies this
      ensures Valid()
      ensures outcome.Answered? ==>
                r == Ok(Some(outcome.data)) && clients == outcome.data.content.GetOr([]) && error.None?
                && interfaces == old(interfaces) && selectedClient == old(selectedClient)
                && selectedInterface == old(selectedInterface) && isAuthenticated == old(isAuthenticated)
      ensures outcome.Failed? && IsAbortError(outcome.error) ==>
                r == Ok(None) && clients == old(clients) && interfaces == old(interfaces) && error == old(error)
                && selectedClient == old(selectedClient) && selectedInterface == old(selectedInterface)
                && isAuthenticated == old(isAuthenticated)
      ensures outcome.Failed? && !IsAbortError(outcome.error) ==> r == Err(outcome.error)
      ensures outcome.Failed? && !IsAbortError(outcome.error) && Status(outcome.error) == Some(401) ==>
                !isAuthenticated && ScopeCleared() && error == Some(AUTH_FAILED)
      ensures outcome.Failed? && !IsAbortError(outcome.error) && Status(outcome.error) != Some(401) ==>
                error == Some(if Status(outcome.error) == Some(403) then NO_CLIENT_PERMISSION else LoadFailure("clients", outcome.error))
                && isAuthenticated == old(isAuthenticated) && clients == old(clients) && interfaces == old(interfaces)
                && selectedClient == old(selectedClient) && selectedInterface == old(selectedInterface)
      ensures userRoles == old(userRoles)
      ensures old(current).Some? ==> !loading && current.None?
      ensures old(current).None? ==> loading == old(loading) && current.None?
      ensures aborted == old(aborted) && nextTicket == old(nextTicket)
    {
      match outcome {
        case Answered(page) =>
          if current.Some? && current.value in aborted {
            r := Ok(None);
          } else {
            clients := page.content.GetOr([]);
            error := None;
            r := Ok(Some(page));
          }
        case Failed(e) =>
          if IsAbortError(e) {
            r := Ok(None);
          } else {
            FailClients(e);
            r := Err(e);
          }
      }
      if current.Some? && current.value !in aborted {
        loading := false;
        current := None;
      }
    }

    /**
     * `refreshClients` after its request, with the staleness test on the
     * request's own controller: an answer to a superseded request changes
     * nothing, and only the current request ends loading.
     */
    method CompleteRefreshClients(ticket: nat, outcome: Outcome<ClientPage>)
      returns (r: Result<Option<ClientPage>, Thrown>)
      requires Valid()
      modifies this
      ensures Valid()
      ensures ticket in old(aborted) ==> r == Ok(None) && unchanged(this)
      ensures ticket !in old(aborted) && outcome.Answered? ==>
                r == Ok(Some(outcome.data)) && clients == outcome.data.content.GetOr([]) && error.None?
                && interfaces == old(interfaces) && selectedClient == old(selectedClient)
                && selectedInterface == old(selectedInterface) && isAuthenticated == old(isAuthenticated)
      ensures ticket !in old(aborted) && outcome.Failed? ==>
                r == (if IsAbortError(outcome.error) then Ok(None) else Err(outcome.error))
      ensures ticket !in old(aborted) && outcome.Failed? && IsAbortError(outcome.error) ==>
                clients == old(clients) && interfaces == old(interfaces) && error == old(error)
                && selectedClient == old(selectedClient) && selectedInterface == old(selectedInterface)
                && isAuthenticated == old(isAuthenticated)
      ensures ticket !in old(aborted) && outcome.Failed? && !IsAbortError(outcome.error) && Status(outcome.error) == Some(401) ==>
                !isAuthenticated && ScopeCleared() && error == Some(AUTH_FAILED)
      ensures ticket !in old(aborted) && outcome.Failed? && !IsAbortError(outcome.error) && Status(outcome.error) != Some(401) ==>
                error == Some(if Status(outcome.error) == Some(403) then NO_CLIENT_PERMISSION else LoadFailure("clients", outcome.error))
                && isAuthenticated == old(isAuthenticated) && clients == old(clients) && interfaces == old(interfaces)
                && selectedClient == old(selectedClient) && selectedInterface == old(selectedInterface)
      ensures ticket !in old(aborted) && old(current) == Some(ticket) ==> !loading && current.None?
      ensures ticket !in old(aborted) && old(current) != Some(ticket) ==> loading == old(loading) && current == old(current)
      ensures aborted == old(aborted) && nextTicket == old(nextTicket) && userRoles == old(userRoles)
    {
      if ticket in aborted {
        return Ok(None);
      }
      match outcome {
        case Answered(page) =>
          clients := page.content.GetOr([]);
          error := None;
          r := Ok(Some(page));
        case Failed(e) =>
          if IsAbortError(e) {
            r := Ok(None);
          } else {
            FailClients(e);
            r := Err(e);
          }
      }
      if current == Some(ticket) {
        loading := false;
        current := None;
      }
    }

    /**
     * `refreshInterfaces()`: nothing happens unless authenticated with a client
     * selected; otherwise the selected client's interfaces are requested and
     * loaded, a 401 ends the session, other failures only set the error, and
     * loading is off at the end.
     */
    method RefreshInterfaces(fetch: int -> Outcome<Option<seq<Interface>>>)
      modifies this
      ensures !old(isAuthenticated) || old(selectedClient).None? ==> unchanged(this)
      ensures old(isAuthenticated) && old(selectedClient).Some? ==>
                !loading && userRoles == old(userRoles) && current == old(current)
                && aborted == old(aborted) && nextTicket == old(nextTicket)
                && match fetch(old(selectedClient).value.id)
                   case Answered(list) =>
                     interfaces == list.GetOr([]) && error.None? && clients == old(clients)
                     && selectedClient == old(selectedClient) && selectedInterface == old(selectedInterface)
                     && isAuthenticated
                   case Failed(e) =>
                     if Status(e) == Some(401) then !isAuthenticated && ScopeCleared() && error == Some(AUTH_FAILED)
                     else
                       isAuthenticated && clients == old(clients) && interfaces == old(interfaces)
                       && selectedClient == old(selectedClient) && selectedInterface == old(selectedInterface)
                       && error == Some(if Status(e) == Some(403) then NO_INTERFACE_PERMISSION else LoadFailure("interfaces", e))
    {
      if !isAuthenticated || selectedClient.None? {
        return;
      }
      loading := true;
      match fetch(selectedClient.value.id) {
        case Answered(list) =>
          interfaces := list.GetOr([]);
          error := None;
        case Failed(e) =>
          if Status(e) == Some(401) {
            isAuthenticated := false;
            ClearAllData();
            error := Some(AUTH_FAILED);
          } else if Status(e) == Some(403) {
            error := Some(NO_INTERFACE_PERMISSION);
          } else {
            error := Some(LoadFailure("interfaces", e));
          }
      }
      loading := false;
    }

    /**
     * `checkAuth()` on mount: without a stored token the session is cleared;
     * otherwise the token is validated (`validateToken` never fails). A valid
     * token authenticates, takes its roles and loads the first page of clients;
     * an invalid one clears the session and the stored tokens.
     */
    method CheckAuth(storage: LocalStorage, validation: Outcome<AuthService.ValidateTokenResponse>,
                     initial: Outcome<ClientPage>)
      modifies this, storage
      ensures current == old(current) && aborted == old(aborted) && nextTicket == old(nextTicket)
      ensures !Truthy(old(SessionTokens.GetToken(storage))) ==>
                !isAuthenticated && ScopeCleared() && error.None? && unchanged(storage)
                && loading == old(loading) && userRoles == old(userRoles)
      ensures Truthy(old(SessionTokens.GetToken(storage))) && !AuthService.ValidateToken(validation).valid ==>
                !isAuthenticated && userRoles == [] && ScopeCleared() && error.None? && loading == old(loading)
                && (forall role :: !HasRole(role))
                && storage.items == old(storage.items) - {SessionTokens.ACCESS_TOKEN_KEY, SessionTokens.REFRESH_TOKEN_KEY}
      ensures Truthy(old(SessionTokens.GetToken(storage))) && AuthService.ValidateToken(validation).valid ==>
                isAuthenticated && userRoles == AuthService.ValidateToken(validation).roles && !loading
                && (forall role :: HasRole(role) <==> role in AuthService.ValidateToken(validation).roles)
                && unchanged(storage) && interfaces == old(interfaces)
                && selectedClient == old(selectedClient) && selectedInterface == old(selectedInterface)
                && match initial
                   case Answered(page) =>
                     (page.content.Some? ==> clients == page.content.value && error.None?)
                     && (page.content.None? ==> clients == [] && error == old(error))
                   case Failed(e) =>
                     clients == old(clients)
                     && error == Some(if Status(e) == Some(403) then NO_CLIENT_PERMISSION else INITIAL_LOAD_FAILED)
    {
      var token := SessionTokens.GetToken(storage);
      if !Truthy(token) {
        isAuthenticated := false;
        ClearAllData();
        return;
      }
      var authResult := AuthService.ValidateToken(validation);
      if authResult.valid {
        SignIn(authResult.roles, initial);
      } else {
        isAuthenticated := false;
        userRoles := [];
        ClearAllData();
        SessionTokens.ClearToken(storage);
      }
    }

    /** The valid-token branch of `checkAuth()`: authenticates with the roles and loads the first page of clients. */
    method SignIn(roles: seq<string>, initial: Outcome<ClientPage>)
      modifies this
      ensures current == old(current) && aborted == old(aborted) && nextTicket == old(nextTicket)
      ensures isAuthenticated && userRoles == roles && !loading && interfaces == old(interfaces)
              && selectedClient == old(selectedClient) && selectedInterface == old(selectedInterface)
      ensures forall role :: HasRole(role) <==> role in roles
      ensures match initial
              case Answered(page) =>
                (page.content.Some? ==> clients == page.content.value && error.None?)
                && (page.content.None? ==> clients == [] && error == old(error))
              case Failed(e) =>
                clients == old(clients)
                && error == Some(if Status(e) == Some(403) then NO_CLIENT_PERMISSION else INITIAL_LOAD_FAILED)
    {
      isAuthenticated := true;
      userRoles := roles;
      loading := true;
      match initial {
        case Answered(page) =>
          if page.content.Some? {
            clients := page.content.value;
            error := None;
          } else {
            clients := [];
          }
        case Failed(e) =>
          if Status(e) == Some(403) {
            error := Some(NO_CLIENT_PERMISSION);
          } else {
            error := Some(INITIAL_LOAD_FAILED);
          }
      }
      loading := false;
    }
  }

  /** A fresh context after a successful token check, with a client selected. */
  method SignedInWithClient() returns (s: ClientInterfaceState, storage: LocalStorage)
    ensures fresh(s) && fresh(storage) && s.Valid()
    ensures s.isAuthenticated && s.selectedClient.Some? && !s.loading && s.current.None?
  {
    s := new ClientInterfaceState();
    storage := new LocalStorage();
    SessionTokens.SetToken(storage, "token", "refresh");
    s.CheckAuth(storage, Answered(AuthService.ValidateTokenResponse(true, "user", [])), Answered(ClientPage(Some([]))));
    s.SetSelectedClient(Some(Client(1, "client")), storage);
  }

  /**
   * Two client refreshes whose answers arrive out of order, as written: the
   * first request is superseded by the second (an interface refresh in between
   * has switched loading off), the second's list arrives first, and the first's
   * stale list then replaces it.
   */
  method StaleListWinsAsWritten(older: seq<Client>, newer: seq<Client>) returns (shown: seq<Client>)
    ensures shown == older
  {
    var s, storage := SignedInWithClient();
    var first := s.BeginRefreshClients();
    s.RefreshInterfaces(_ => Answered(None));
    var second := s.BeginRefreshClients();
    var _ := s.CompleteRefreshClientsAsWritten(second.value, Answered(ClientPage(Some(newer))));
    var _ := s.CompleteRefreshClientsAsWritten(first.value, Answered(ClientPage(Some(older))));
    shown := s.clients;
  }

  /** The same sequence with the corrected completion keeps the newer list. */
  method NewerListWins(older: seq<Client>, newer: seq<Client>) returns (shown: seq<Client>)
    ensures shown == newer
  {
    var s, storage := SignedInWithClient();
    var first := s.BeginRefreshClients();
    s.RefreshInterfaces(_ => Answered(None));
    var second := s.BeginRefreshClients();
    var _ := s.CompleteRefreshClients(second.value, Answered(ClientPage(Some(newer))));
    var _ := s.CompleteRefreshClients(first.value, Answered(ClientPage(Some(older))));
    shown := s.clients;
  }
}
