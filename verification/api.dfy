/** Endpoint and API descriptors. The module that builds them (`./api`) is
    not part of this model; only the shape the registry and the encoders read
    is. Endpoint ids are expected to be pairwise distinct; that module is
    expected to check this when an API is assembled. */
module ApiModel {
  import opened Schemas

  /** A schema position of an endpoint descriptor; `Ignored` is the
      `IgnoredSchemaId` marker left where no schema was declared. */
  datatype SchemaSlot = Ignored | Given(schema: Schema)

  /** One `{status, content, headers}` alternative of a response. */
  datatype ResponseVariant = ResponseVariant(status: int, content: SchemaSlot, headers: SchemaSlot)

  /** `Endpoint["schemas"]["response"]`: one schema, or an array of variants. */
  datatype ResponseSpec = Single(schema: Schema) | Variants(variants: seq<ResponseVariant>)

  /** `Endpoint["schemas"]["request"]`. */
  datatype RequestSchemas = RequestSchemas(query: SchemaSlot, params: SchemaSlot, body: SchemaSlot, headers: SchemaSlot)

  datatype Endpoint = Endpoint(
    id: string,
    httpMethod: string,
    path: string,
    request: RequestSchemas,
    response: ResponseSpec)

  /** An ordered collection of endpoints. */
  datatype Api = Api(endpoints: seq<Endpoint>)

  function Ids(es: seq<Endpoint>): set<string> {
    set e | e in es :: e.id
  }

  predicate UniqueIds(es: seq<Endpoint>) {
    forall i, j :: 0 <= i < j < |es| ==> es[i].id != es[j].id
  }
}
