/**
 * The persistent entities of the back end, reduced to the fields the modelled
 * services read and write. A Java `null` is `None`; an entity reference is
 * reduced to the referenced entity's id.
 */
module Entities {
  import opened Wrappers

  /** `Interface`: an integration endpoint of a client, with its document type. */
  datatype Interface = Interface(id: Option<int>, name: Option<string>, interfaceType: Option<string>,
                                 client: Option<int>)

  datatype ClientStatus = ACTIVE | INACTIVE | PENDING

  /** `Client`: a tenant of the system. */
  datatype Client = Client(id: Option<int>, name: Option<string>, code: Option<string>,
                           status: Option<ClientStatus>, description: Option<string>)

  const SUCCESS: string := "SUCCESS"
  const ERROR: string := "ERROR"

  /** `ProcessedFile`: the record a processing strategy returns for one document (its time stamp is not modelled). */
  datatype ProcessedFile = ProcessedFile(fileName: Option<string>, status: string, errorMessage: Option<string>,
                                         interfaceEntity: Option<Interface>, client: Option<int>)
}
