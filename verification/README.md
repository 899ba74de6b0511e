# effect-http: handler registry and schema plumbing, in Dafny

This project models the two pieces of sequential logic at the centre of the
effect-http contract layer, and proves what they promise.

- **The handler registry** (`src/server.ts`). A `Server` holds its API, the
  endpoints still waiting for a handler (in API order) and the handlers bound
  so far (in binding order). `server(api)` starts with everything
  unimplemented. `handle(id, fn)` moves one endpoint from the unimplemented
  list to the handler list. `provideLayer` and `provideService` wrap every
  handler function. `exhaustive` only accepts a complete server. `setLogger`
  picks a logger. The source enforces the registry discipline in TypeScript
  types (`DropEndpoint`, `ServerUnimplementedIds`, `Server<[], Handler<any,
  never>[]>`). Here those type-level conditions are explicit preconditions.
  The bookkeeping they guarantee is proved as lemmas: with distinct API ids,
  the unimplemented ids and the bound ids partition the API's ids.
- **Schema plumbing** (`src/internal.ts`). `getSchema` swaps a default in for
  the `IgnoredSchemaId` marker. `createResponseSchema` turns a variant list
  into a union keyed on the status literal. `parse` lets the marker value
  through without encoding it. `createRequestEncoder` runs query, params,
  body and headers in that order and reports only the first failure,
  wrapped as a client validation error.

Modules and files:

| file | module | contents |
|---|---|---|
| `results.dfy` | `Results` | `Result` (an effect that cannot suspend) |
| `schema.dfy` | `Schemas` | values, schemas, diagnostics, `Encode`, struct and union lemmas |
| `errors.dfy` | `ApiErrors` | the four field-group error kinds and `ValidationClientError` |
| `internal.dfy` | `Internal` | `getSchema`, `createResponseSchema`, `parse`, `createRequestEncoder` |
| `api.dfy` | `ApiModel` | endpoint and API descriptors, schema slots, response variants |
| `server.dfy` | `Server` | the registry, `handle`, provision, `exhaustive`, `setLogger` |

Schemas are modelled as a small closed set of combinators: `unknown`, the
string-to-string record, a numeric literal, `struct` and `union`. Every other
schema is `External(id)`. What an external schema does is an opaque `Codec`
function that each encoding operation takes as a parameter. A handler
function is an opaque token plus the set of services its type still
requires. A provision step wraps the token without looking inside it.

Behaviour of the code worth knowing:

- Request-side headers with no schema fall back to `unknown`: `getSchema`
  gets no default at src/internal.ts:69. Response-variant headers fall back
  to a string-to-string record (src/internal.ts:42-45). So the same value can
  pass on one side and fail on the other;
  `Internal.RequestHeadersDefaultToUnknown` exhibits one.
- The encoded request always has all four keys. An undeclared group holds its
  argument passed through `unknown`; it is not omitted.
- Binding an id twice, or binding an unknown id, is not a runtime error. It is
  ruled out by the type of `handle`, so it is a precondition of `Server.Handle`.
  At runtime the filter would silently drop nothing and `find` would return
  `undefined`.
- The registry keeps ordered lists, not a set and a map. The set view is the
  invariant `Server.Partitioned`.

## Model

| member | source | states |
|---|---|---|
| `Internal.GetSchema` | src/internal.ts:17-20 | a declared schema is returned as given; the ignored marker is replaced by the default |
| `Internal.GetSchemaDefaultPassesThrough` | src/internal.ts:17-20 | with no explicit default, an ignored slot accepts every value unchanged; a declared schema ignores whatever default is offered |
| `Internal.CreateResponseSchema` | src/internal.ts:30-49 | a single schema is returned unchanged; a variant list becomes a union with one status/content/headers struct per variant, in declared order |
| `Internal.VariantSchemaAccepts` | src/internal.ts:38-46 | one variant's struct accepts an output iff its status equals the variant's literal and its content and headers pass the defaulted schemas |
| `Internal.ResponseVariantsAccept` | src/internal.ts:37-48 | a variant list accepts an output iff some variant accepts it |
| `Internal.UndeclaredStatusRejected` | src/internal.ts:37-48 | an output whose status no variant declares fails to encode |
| `Internal.ResponseVariantSelected` | src/internal.ts:37-48 | with distinct statuses, an accepted output is encoded by the variant carrying its status, keeping the status and using that variant's content and headers encodings |
| `Internal.VariantDefaults` | src/internal.ts:41-45 | in a variant, missing content accepts anything unchanged, and missing headers accept exactly the string-to-string records |
| `Internal.Parse` | src/internal.ts:52-60 | the ignored marker succeeds as itself whatever the encoder; any other value succeeds iff the encoder does, and a failure is rewritten by `onError` |
| `Internal.EncodeGroup` | src/internal.ts:66-77 | one group: the marker passes; otherwise the result is the group schema's encoding of `args[key]`, and a failure carries that group's error kind and the schema's diagnostic |
| `Internal.RunGroupsFirstFailure` | src/internal.ts:73-78 | the sequential run fails iff some group fails, and then with the error of the earliest failing group, all earlier groups having succeeded |
| `Internal.RunGroupsOutput` | src/internal.ts:73-78 | a successful run over distinct groups holds exactly their keys, each mapped to its group's encoding |
| `Internal.EncodeRequest` | src/internal.ts:63-81 | success iff every group succeeds, with exactly the keys query, params, body, headers holding the groups' encodings; a failure is `validationClientError` of the first failing group in query, params, body, headers order |
| `Internal.LaterGroupsNotObserved` | src/internal.ts:73-79 | once a group fails, groups after it cannot change the result |
| `Internal.RequestHeadersDefaultToUnknown` | src/internal.ts:66-69 | request headers without a schema pass every value through, including a non-record that a response variant's default headers reject |
| `Schemas.EncodeFieldsAccepts` | src/internal.ts:39-46 | a struct accepts an object iff every declared key is present and accepted by its field schema |
| `Schemas.EncodeFieldsOutput` | src/internal.ts:39-46 | an encoded struct holds exactly the declared keys, each with its field's encoding |
| `Schemas.EncodeMembersFirstMatch` | src/internal.ts:37-48 | a union accepts a value iff a member does, and encodes it with the first member that accepts it |
| `Server.NewServer` | src/server.ts:50-58 | a new server lists every API endpoint as unimplemented, in API order, with no handlers, the pretty logger and the default formatter |
| `Server.NewServerPartitioned` | src/server.ts:50-58 | a new server over an API with distinct ids satisfies the registry invariant |
| `Server.FirstWithId` | src/server.ts:94-96 | `find` returns the first endpoint with the id |
| `Server.Without` | src/server.ts:87-89 | the filter keeps exactly the endpoints whose id differs |
| `Server.WithoutConcat` | src/server.ts:87-89 | the filter distributes over concatenation, so survivors keep their relative order |
| `Server.WithoutUnique` | src/server.ts:87-89 | filtering a list with distinct ids keeps them distinct and removes exactly one endpoint when the id occurs |
| `Server.DropEndpointMatchesFilter` | src/server.ts:60-67 | with distinct ids, the type-level `DropEndpoint` (first match only) equals the runtime filter (all matches) |
| `Server.DropEndpointDiffersOnDuplicates` | src/server.ts:60-67 | with a duplicated id the two disagree: the type keeps a copy the filter drops |
| `Server.Handle` | src/server.ts:72-102 | the id leaves the unimplemented list, other endpoints keep their order, exactly one handler is appended after the unchanged earlier ones, bound to the first unimplemented endpoint with the id; api, logger and formatter are unchanged |
| `Server.HandlePreservesPartition` | src/server.ts:85-102 | binding an unimplemented id preserves the registry invariant: ids disjoint, union equal to the API ids, counts adding up |
| `Server.HandleEach` | src/server.ts:72-102 | binding each remaining endpoint once empties the unimplemented list and adds one handler per endpoint |
| `Server.HandleEachPartitioned` | src/server.ts:72-102 | from a partitioned server, binding every remaining endpoint keeps the invariant and binds every API id |
| `Server.ProvideLayer` | src/server.ts:104-124 | handler i's function becomes its old function wrapped with this layer; handlers keep their count, order and endpoints; each handler's required services lose those the layer supplies and gain the layer's own if it supplied any; the unimplemented list is unchanged |
| `Server.ProvideService` | src/server.ts:126-150 | handler i's function becomes its old function wrapped with this tag and service; handlers keep their count, order and endpoints, and no longer require the provided tag; the unimplemented list is unchanged |
| `Server.ProvisionPreservesPartition` | src/server.ts:114-150 | both provision steps preserve the registry invariant |
| `Server.Exhaustive` | src/server.ts:152-154 | only a server with nothing unimplemented and no outstanding service requirements is accepted; it is returned unchanged, and on a partitioned server every API id is bound |
| `Server.SetLogger` | src/server.ts:171-189 | each shorthand selects its built-in logger, an instance is used as given, and nothing else changes |
| `Server.SetLoggerLastWins` | src/server.ts:171-189 | setting the logger twice equals setting it once to the second choice, and the registry invariant is untouched |

## Left out

- The Effect runtime. `Effect.provideLayer`, `Effect.provideService`, `Layer` and `Context` are not modelled; a handler function is an opaque token and provision only records the wrapping and its effect on the required-services type.
- The concrete loggers of `effect-log` and `@effect/io/Logger`: they are constructors of an enumeration plus `CustomLogger`.
- The internals of `@effect/schema` and `ParseError`: diagnostics are an abstract `Diag`, application schemas are `External` and answered by a `Codec` parameter, optional struct fields and transformations are left to that codec.
- Decoding. Only the encode direction is modelled, the one `createRequestEncoder` and the response schema are used in here.
- Case-insensitive header matching and duplicate-id rejection when an API is built: neither is in `src/server.ts` or `src/internal.ts`; distinct ids are a precondition of the invariant lemmas instead.
- Concurrency and routing: `Effect.all` is run sequentially, its default; dispatch is outside these files.
- The type helpers `Input`, `Body`, `Query`, `SelectEndpointById` and `isArray` have no runtime content beyond what the datatypes already express.
- The `./api`, `./errors`, `./ClientError`, `./ServerError` and `./validation-error-formatter` modules are not part of this model; only the shapes and constructors these files use are.
- The node example programs: they only wire a server to a listener and a runtime.
- Server.ProvideLayer: a handler whose requirement type is `any` is not modelled; requirements are a finite set of service tags.
