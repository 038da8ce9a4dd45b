/** The front end's shared entity types: a client and an interface, as far as the contexts use them. */
module Types {
  datatype Client = Client(id: int, name: string)
  datatype Interface = Interface(id: int, name: string)
}
