/**
 * `ClientProvider`: the client list, the selected client persisted under
 * `selectedClientId`, and the loading and error state of the client context.
 */
module ClientContext {
  import opened Wrappers
  import opened Text
  import opened Browser
  import opened JsError
  import opened Types

  const SELECTED_CLIENT_KEY: string := "selectedClientId"
  const AUTH_REQUIRED: string := "Authentication required"

  datatype ClientPage = ClientPage(content: seq<Client>)

  /** `clients.find(c => c.id === id)`: the first client with the id; an unparsable id (NaN) matches none. */
  function FindById(clients: seq<Client>, id: Option<int>): (r: Option<Client>)
    ensures r.Some? ==> id.Some? && r.value.id == id.value && r.value in clients
    ensures r.Some? ==> exists i :: 0 <= i < |clients| && clients[i] == r.value
                                    && forall j :: 0 <= j < i ==> clients[j].id != id.value
    ensures r.None? ==> id.None? || forall i :: 0 <= i < |clients| ==> clients[i].id != id.value
    decreases |clients|
  {
    if id.None? || clients == [] then None
    else if clients[0].id == id.value then Some(clients[0])
    else FindById(clients[1..], id)
  }

  /** A persisted id reads back as itself: restoring finds a client with the persisted client's id whenever the list holds one. */
  lemma PersistedIdRestores(clients: seq<Client>, c: Client)
    ensures FindById(clients, ParseInt(IntToString(c.id))) == FindById(clients, Some(c.id))
    ensures c in clients ==> FindById(clients, ParseInt(IntToString(c.id))).Some?
  {
    ParseIntOfIntToString(c.id);
  }

  class ClientState {
    var clients: seq<Client>
    var selectedClient: Option<Client>
    var error: Option<string>
    var loading: bool

    constructor()
      ensures clients == [] && selectedClient.None? && error.None? && !loading
    {
      clients := [];
      selectedClient := None;
      error := None;
      loading := false;
    }

    /**
     * `loadClients()`: unauthenticated, it only sets an error. Otherwise the
     * loaded list replaces the clients and the persisted client is restored when
     * the list has its id. A failure sets an error; a 401 or 403 also drops the
     * clients, the selection and the persisted id. Loading is off at the end.
     */
    method LoadClients(isAuthenticated: bool, outcome: Outcome<ClientPage>, storage: LocalStorage)
      modifies this, storage
      ensures !isAuthenticated ==>
                error == Some(AUTH_REQUIRED) && clients == old(clients) && selectedClient == old(selectedClient)
                && loading == old(loading) && unchanged(storage)
      ensures isAuthenticated ==> !loading
      ensures isAuthenticated && outcome.Answered? ==>
                clients == outcome.data.content && error.None? && unchanged(storage)
                && var saved := old(storage.GetItem(SELECTED_CLIENT_KEY));
                   var found := if Truthy(saved) then FindById(outcome.data.content, ParseInt(saved.value)) else None;
                   selectedClient == (if found.Some? then found else old(selectedClient))
      ensures isAuthenticated && outcome.Failed? ==>
                error == Some("Failed to load clients: "
                              + OrElse(DataMessage(outcome.error), Message(outcome.error), "Failed to load clients"))
      ensures isAuthenticated && outcome.Failed? && (Status(outcome.error) == Some(401) || Status(outcome.error) == Some(403)) ==>
                clients == [] && selectedClient.None? && storage.items == old(storage.items) - {SELECTED_CLIENT_KEY}
      ensures isAuthenticated && outcome.Failed? && Status(outcome.error) != Some(401) && Status(outcome.error) != Some(403) ==>
                clients == old(clients) && selectedClient == old(selectedClient) && unchanged(storage)
    {
      if !isAuthenticated {
        error := Some(AUTH_REQUIRED);
        return;
      }
      loading := true;
      error := None;
      match outcome {
        case Answered(page) =>
          clients := page.content;
          var savedClientId := storage.GetItem(SELECTED_CLIENT_KEY);
          if Truthy(savedClientId) {
            var savedClient := FindById(page.content, ParseInt(savedClientId.value));
            if savedClient.Some? {
              selectedClient := savedClient;
            }
          }
        case Failed(e) =>
          error := Some("Failed to load clients: " + OrElse(DataMessage(e), Message(e), "Failed to load clients"));
          if Status(e) == Some(401) || Status(e) == Some(403) {
            clients := [];
            selectedClient := None;
            storage.RemoveItem(SELECTED_CLIENT_KEY);
          }
      }
      loading := false;
    }

    /** `selectClient(client)`: selects it and persists its id, or removes the persisted id for no client. */
    method SelectClient(client: Option<Client>, storage: LocalStorage)
      modifies this, storage
      ensures selectedClient == client
      ensures client.Some? ==> storage.items == old(storage.items)[SELECTED_CLIENT_KEY := IntToString(client.value.id)]
      ensures client.None? ==> storage.items == old(storage.items) - {SELECTED_CLIENT_KEY}
      ensures clients == old(clients) && error == old(error) && loading == old(loading)
    {
      selectedClient := client;
      if client.Some? {
        storage.SetItem(SELECTED_CLIENT_KEY, IntToString(client.value.id));
      } else {
        storage.RemoveItem(SELECTED_CLIENT_KEY);
      }
    }
  }

  /** Selecting a client and reloading a list that holds it restores a client with its id. */
  method SelectThenReload(c: Client, list: seq<Client>) returns (restored: Option<Client>)
    requires c in list
    ensures restored.Some? && restored.value.id == c.id
  {
    var s := new ClientState();
    var storage := new LocalStorage();
    s.SelectClient(Some(c), storage);
    s.SelectClient(None, storage);
    s.SelectClient(Some(c), storage);
    PersistedIdRestores(list, c);
    s.LoadClients(true, Answered(ClientPage(list)), storage);
    restored := s.selectedClient;
  }
}
