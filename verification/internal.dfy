/** Schema plumbing shared by the client and the server (src/internal.ts):
    defaulting of ignored schemas, the response schema built from a list of
    status-coded variants, and the request encoder that runs the four field
    groups in a fixed order. */
module Internal {
  import opened Results
  import opened Schemas
  import opened ApiErrors
  import opened ApiModel

  // ---------------------------------------------------------------------
  // getSchema

  /** The schema to use for a slot: the declared one, or `default` (by
      default the pass-through `unknown` schema) when the slot is ignored. */
  function GetSchema(input: SchemaSlot, default: Schema := Unknown): (r: Schema)
    ensures input.Given? ==> r == input.schema
    ensures input.Ignored? ==> r == default
  {
    if input == Ignored then default else input.schema
  }

  /** An ignored slot read without an explicit default accepts every value
      and passes it through unchanged; a declared schema is used whatever
      default is offered. */
  lemma GetSchemaDefaultPassesThrough(ext: Codec, d: Schema, s: Schema, v: Value)
    ensures Encode(ext, GetSchema(Ignored), v) == Ok(v)
    ensures Encode(ext, GetSchema(Given(s), d), v) == Encode(ext, s, v)
  {
  }

  // ---------------------------------------------------------------------
  // createResponseSchema

  /** The schemas a variant's content and headers are checked against:
      content defaults to pass-through, headers to a string-to-string record. */
  function ContentSchema(rv: ResponseVariant): Schema {
    GetSchema(rv.content)
  }

  function HeadersSchema(rv: ResponseVariant): Schema {
    GetSchema(rv.headers, StringRecord)
  }

  /** `Schema.struct({status: Schema.literal(status), content, headers})`. */
  function VariantSchema(rv: ResponseVariant): Schema {
    Struct([Field("status", Literal(rv.status)),
            Field("content", ContentSchema(rv)),
            Field("headers", HeadersSchema(rv))])
  }

  /** A single response schema is returned as it is; a variant list becomes
      a union with one struct per variant, in the declared order. */
  function CreateResponseSchema(spec: ResponseSpec): (r: Schema)
    ensures spec.Single? ==> r == spec.schema
    ensures spec.Variants? ==>
      && r.Union?
      && |r.members| == |spec.variants|
      && forall i :: 0 <= i < |spec.variants| ==> r.members[i] == VariantSchema(spec.variants[i])
  {
    match spec
    case Single(s) => s
    case Variants(vs) => Union(seq(|vs|, i requires 0 <= i < |vs| => VariantSchema(vs[i])))
  }

  /** A handler output `{status, content, headers}` as a value. */
  function ResponseValue(status: int, content: Value, headers: Value): Value {
    Obj(map["status" := Num(status), "content" := content, "headers" := headers])
  }

  /** What it means for one variant to accept a handler output: the output
      declares the variant's status, and its content and headers pass the
      variant's (defaulted) schemas. */
  predicate VariantAccepts(ext: Codec, rv: ResponseVariant, out: Value) {
    && out.Obj?
    && "status" in out.fields && out.fields["status"] == Num(rv.status)
    && "content" in out.fields && Encode(ext, ContentSchema(rv), out.fields["content"]).Ok?
    && "headers" in out.fields && Encode(ext, HeadersSchema(rv), out.fields["headers"]).Ok?
  }

  predicate UniqueStatuses(vs: seq<ResponseVariant>) {
    forall i, j :: 0 <= i < j < |vs| ==> vs[i].status != vs[j].status
  }

  lemma {:induction false} VariantSchemaAccepts(ext: Codec, rv: ResponseVariant, out: Value)
    ensures Encode(ext, VariantSchema(rv), out).Ok? <==> VariantAccepts(ext, rv, out)
  {
    var fields := VariantSchema(rv).fields;
    if out.Obj? {
      EncodeFieldsAccepts(ext, fields, out.fields);
      if !VariantAccepts(ext, rv, out) {
        if "status" !in out.fields || out.fields["status"] != Num(rv.status) {
          assert !(fields[0].name in out.fields && Encode(ext, fields[0].schema, out.fields[fields[0].name]).Ok?);
        } else if "content" !in out.fields || Encode(ext, ContentSchema(rv), out.fields["content"]).Err? {
          assert !(fields[1].name in out.fields && Encode(ext, fields[1].schema, out.fields[fields[1].name]).Ok?);
        } else {
          assert !(fields[2].name in out.fields && Encode(ext, fields[2].schema, out.fields[fields[2].name]).Ok?);
        }
      }
    }
  }

  /** A variant list accepts a handler output exactly when some variant
      accepts it; in particular an output whose status no variant declares
      is rejected. */
  lemma ResponseVariantsAccept(ext: Codec, vs: seq<ResponseVariant>, out: Value)
    ensures Encode(ext, CreateResponseSchema(Variants(vs)), out).Ok? <==>
      exists i :: 0 <= i < |vs| && VariantAccepts(ext, vs[i], out)
  {
    var ms := CreateResponseSchema(Variants(vs)).members;
    EncodeMembersFirstMatch(ext, ms, out);
    forall i | 0 <= i < |vs| ensures Encode(ext, ms[i], out).Ok? <==> VariantAccepts(ext, vs[i], out) {
      VariantSchemaAccepts(ext, vs[i], out);
    }
  }

  /** An output whose status is not declared by any variant fails to encode. */
  lemma UndeclaredStatusRejected(ext: Codec, vs: seq<ResponseVariant>, status: int, content: Value, headers: Value)
    requires forall i :: 0 <= i < |vs| ==> vs[i].status != status
    ensures Encode(ext, CreateResponseSchema(Variants(vs)), ResponseValue(status, content, headers)).Err?
  {
    ResponseVariantsAccept(ext, vs, ResponseValue(status, content, headers));
  }

  /** With distinct statuses, an output accepted by the variant carrying its
      status is encoded by exactly that variant: the status is kept and the
      content and headers are those variant schemas' encodings. */
  lemma ResponseVariantSelected(ext: Codec, vs: seq<ResponseVariant>, i: int, out: Value)
    requires UniqueStatuses(vs)
    requires 0 <= i < |vs| && VariantAccepts(ext, vs[i], out)
    ensures Encode(ext, CreateResponseSchema(Variants(vs)), out) ==
      Ok(ResponseValue(vs[i].status,
                       Encode(ext, ContentSchema(vs[i]), out.fields["content"]).value,
                       Encode(ext, HeadersSchema(vs[i]), out.fields["headers"]).value))
  {
    var ms := CreateResponseSchema(Variants(vs)).members;
    forall j | 0 <= j < i ensures Encode(ext, ms[j], out).Err? {
      VariantSchemaAccepts(ext, vs[j], out);
    }
    VariantSchemaAccepts(ext, vs[i], out);
    EncodeMembersFirstMatch(ext, ms, out);
    var fields := VariantSchema(vs[i]).fields;
    EncodeFieldsOutput(ext, fields, out.fields);
    var m := EncodeFields(ext, fields, out.fields).value;
    NamesOfThree(fields[0], fields[1], fields[2]);
    assert fields == [fields[0], fields[1], fields[2]];
    assert m["status"] == Num(vs[i].status);
    assert m == map["status" := Num(vs[i].status),
                    "content" := Encode(ext, ContentSchema(vs[i]), out.fields["content"]).value,
                    "headers" := Encode(ext, HeadersSchema(vs[i]), out.fields["headers"]).value];
  }

  lemma NamesOfThree(a: Field, b: Field, c: Field)
    ensures Names([a, b, c]) == {a.name, b.name, c.name}
  {
    assert [a, b, c][1..] == [b, c];
    assert [b, c][1..] == [c];
    assert [c][1..] == [];
    assert Names([c]) == {c.name};
    assert Names([b, c]) == {b.name} + Names([c]);
    assert Names([a, b, c]) == {a.name} + Names([b, c]);
  }

  /** Inside a variant, an absent content schema accepts any content, and
      absent headers accept exactly the string-to-string records. */
  lemma VariantDefaults(ext: Codec, rv: ResponseVariant, content: Value, headers: Value)
    ensures rv.content.Ignored? ==> Encode(ext, ContentSchema(rv), content) == Ok(content)
    ensures rv.headers.Ignored? ==> (Encode(ext, HeadersSchema(rv), headers).Ok? <==> IsStringRecord(headers))
  {
  }

  // ---------------------------------------------------------------------
  // parse

  /** Encodes one argument: the ignored marker succeeds as itself without the
      encoder being consulted; any other value goes through the encoder, and
      its failure is rewritten by `onError`. */
  function Parse<E>(a: Value, encode: Value -> Result<Value, Diag>, onError: Diag -> E): (r: Result<Value, E>)
    ensures a == IgnoredMarker ==> r == Ok(IgnoredMarker)
    ensures a != IgnoredMarker ==> (r.Ok? <==> encode(a).Ok?)
    ensures a != IgnoredMarker && encode(a).Ok? ==> r.value == encode(a).value
    ensures a != IgnoredMarker && encode(a).Err? ==> r.error == onError(encode(a).error)
  {
    if a == IgnoredMarker then Ok(a) else encode(a).MapError(onError)
  }

  // ---------------------------------------------------------------------
  // createRequestEncoder

  datatype Group = Query | Params | Body | Headers

  /** The order in which `Effect.all` runs the groups. */
  const GroupOrder: seq<Group> := [Query, Params, Body, Headers]

  function Key(g: Group): string {
    match g
    case Query => "query"
    case Params => "params"
    case Body => "body"
    case Headers => "headers"
  }

  function Slot(rs: RequestSchemas, g: Group): SchemaSlot {
    match g
    case Query => rs.query
    case Params => rs.params
    case Body => rs.body
    case Headers => rs.headers
  }

  /** `invalidQueryError`, `invalidParamsError`, `invalidBodyError`,
      `invalidHeadersError`. */
  function InvalidGroupError(g: Group, d: Diag): ServerError {
    match g
    case Query => InvalidQueryError(d)
    case Params => InvalidParamsError(d)
    case Body => InvalidBodyError(d)
    case Headers => InvalidHeadersError(d)
  }

  /** The group an error kind belongs to. */
  function ErrorGroup(e: ServerError): Group {
    match e
    case InvalidQueryError(_) => Query
    case InvalidParamsError(_) => Params
    case InvalidBodyError(_) => Body
    case InvalidHeadersError(_) => Headers
  }

  /** `args[key]`: a missing property reads as `undefined`. */
  function Arg(args: map<string, Value>, key: string): Value {
    if key in args then args[key] else Undefined
  }

  /** The schema a group is encoded with. No default is passed, so every
      ignored group, headers included, falls back to `unknown`. */
  function GroupSchema(rs: RequestSchemas, g: Group): Schema {
    GetSchema(Slot(rs, g))
  }

  /** One entry of the `Effect.all` record: `parse(args[key], encode, invalidXError)`. */
  function EncodeGroup(ext: Codec, rs: RequestSchemas, args: map<string, Value>, g: Group): (r: Result<Value, ServerError>)
    ensures Arg(args, Key(g)) == IgnoredMarker ==> r == Ok(IgnoredMarker)
    ensures r.Ok? && Arg(args, Key(g)) != IgnoredMarker ==>
      Encode(ext, GroupSchema(rs, g), Arg(args, Key(g))) == Ok(r.value)
    ensures r.Err? ==>
      && ErrorGroup(r.error) == g
      && Encode(ext, GroupSchema(rs, g), Arg(args, Key(g))) == Err(r.error.diag)
  {
    Parse(Arg(args, Key(g)),
          (v: Value) => Encode(ext, GroupSchema(rs, g), v),
          (d: Diag) => InvalidGroupError(g, d))
  }

  /** `Effect.all` over the groups `gs`, run one after another: the first
      failure ends the run; otherwise each group's value is stored under its
      key. */
  function RunGroups(ext: Codec, rs: RequestSchemas, args: map<string, Value>, gs: seq<Group>): Result<map<string, Value>, ServerError>
  {
    if gs == [] then Ok(map[])
    else
      match EncodeGroup(ext, rs, args, gs[0])
      case Err(e) => Err(e)
      case Ok(x) =>
        match RunGroups(ext, rs, args, gs[1..])
        case Err(e) => Err(e)
        case Ok(m) => Ok(m[Key(gs[0]) := x])
  }

  lemma EveryGroupOrdered()
    ensures forall g: Group :: g in GroupOrder
  {
    forall g: Group ensures g in GroupOrder {
      match g
      case Query => assert GroupOrder[0] == g;
      case Params => assert GroupOrder[1] == g;
      case Body => assert GroupOrder[2] == g;
      case Headers => assert GroupOrder[3] == g;
    }
  }

  function Keys(gs: seq<Group>): set<string> {
    if gs == [] then {} else {Key(gs[0])} + Keys(gs[1..])
  }

  predicate DistinctGroups(gs: seq<Group>) {
    forall i, j :: 0 <= i < j < |gs| ==> gs[i] != gs[j]
  }

  /** The run fails exactly when some group fails, and then with the error of
      the earliest failing group, every group before it having succeeded. */
  lemma {:induction false} RunGroupsFirstFailure(ext: Codec, rs: RequestSchemas, args: map<string, Value>, gs: seq<Group>)
    ensures RunGroups(ext, rs, args, gs).Ok? <==> forall i :: 0 <= i < |gs| ==> EncodeGroup(ext, rs, args, gs[i]).Ok?
    ensures RunGroups(ext, rs, args, gs).Err? ==>
      exists i :: 0 <= i < |gs|
        && EncodeGroup(ext, rs, args, gs[i]) == Err(RunGroups(ext, rs, args, gs).error)
        && forall j :: 0 <= j < i ==> EncodeGroup(ext, rs, args, gs[j]).Ok?
    decreases gs
  {
    if gs != [] {
      RunGroupsFirstFailure(ext, rs, args, gs[1..]);
      assert forall i :: 1 <= i < |gs| ==> gs[i] == gs[1..][i - 1];
      var r := RunGroups(ext, rs, args, gs);
      if r.Err? && EncodeGroup(ext, rs, args, gs[0]).Ok? {
        var k :| 0 <= k < |gs[1..]|
          && EncodeGroup(ext, rs, args, gs[1..][k]) == Err(r.error)
          && forall j :: 0 <= j < k ==> EncodeGroup(ext, rs, args, gs[1..][j]).Ok?;
        assert EncodeGroup(ext, rs, args, gs[k + 1]) == Err(r.error);
        assert forall j :: 0 <= j < k + 1 ==> EncodeGroup(ext, rs, args, gs[j]).Ok? by {
          forall j | 0 <= j < k + 1 ensures EncodeGroup(ext, rs, args, gs[j]).Ok? {
            if j > 0 { assert gs[j] == gs[1..][j - 1]; }
          }
        }
      }
    }
  }

  /** A successful run holds exactly the groups' keys, each mapped to that
      group's encoded value. */
  lemma {:induction false} RunGroupsOutput(ext: Codec, rs: RequestSchemas, args: map<string, Value>, gs: seq<Group>)
    requires DistinctGroups(gs)
    ensures RunGroups(ext, rs, args, gs).Ok? ==>
      && RunGroups(ext, rs, args, gs).value.Keys == Keys(gs)
      && forall i :: 0 <= i < |gs| ==>
        && EncodeGroup(ext, rs, args, gs[i]).Ok?
        && Key(gs[i]) in RunGroups(ext, rs, args, gs).value
        && RunGroups(ext, rs, args, gs).value[Key(gs[i])] == EncodeGroup(ext, rs, args, gs[i]).value
    decreases gs
  {
    if gs != [] && RunGroups(ext, rs, args, gs).Ok? {
      RunGroupsFirstFailure(ext, rs, args, gs);
      RunGroupsOutput(ext, rs, args, gs[1..]);
      assert forall i :: 1 <= i < |gs| ==> gs[i] == gs[1..][i - 1];
    }
  }

  /** The run over the four groups in their fixed order, stated per group. */
  lemma GroupOrderRun(ext: Codec, rs: RequestSchemas, args: map<string, Value>)
    ensures RunGroups(ext, rs, args, GroupOrder).Ok? <==> forall g :: EncodeGroup(ext, rs, args, g).Ok?
    ensures RunGroups(ext, rs, args, GroupOrder).Ok? ==>
      && RunGroups(ext, rs, args, GroupOrder).value.Keys == {"query", "params", "body", "headers"}
      && forall g :: RunGroups(ext, rs, args, GroupOrder).value[Key(g)] == EncodeGroup(ext, rs, args, g).value
  {
    RunGroupsFirstFailure(ext, rs, args, GroupOrder);
    assert DistinctGroups(GroupOrder);
    RunGroupsOutput(ext, rs, args, GroupOrder);
    EveryGroupOrdered();
    assert GroupOrder[1..][1..][1..][1..] == [];
    assert Keys(GroupOrder) == {"query", "params", "body", "headers"};
  }

  /** `createRequestEncoder(rs)(args)`. On success the result is a record
      with exactly the keys `query`, `params`, `body` and `headers`, each
      holding its group's encoding. On failure the error is the
      `validationClientError` wrapping of the first group, in the order
      query, params, body, headers, that failed; every earlier group
      succeeded. */
  function EncodeRequest(ext: Codec, rs: RequestSchemas, args: map<string, Value>): (r: Result<Value, ClientError>)
    ensures r.Ok? <==> forall g :: EncodeGroup(ext, rs, args, g).Ok?
    ensures r.Ok? ==>
      && r.value.Obj?
      && r.value.fields.Keys == {"query", "params", "body", "headers"}
      && forall g :: r.value.fields[Key(g)] == EncodeGroup(ext, rs, args, g).value
    ensures r.Err? ==>
      exists i :: 0 <= i < |GroupOrder|
        && EncodeGroup(ext, rs, args, GroupOrder[i]).Err?
        && r.error == ValidationClientError(EncodeGroup(ext, rs, args, GroupOrder[i]).error)
        && forall j :: 0 <= j < i ==> EncodeGroup(ext, rs, args, GroupOrder[j]).Ok?
  {
    RunGroupsFirstFailure(ext, rs, args, GroupOrder);
    GroupOrderRun(ext, rs, args);
    match RunGroups(ext, rs, args, GroupOrder)
    case Ok(m) => Ok(Obj(m))
    case Err(e) => Err(ValidationClientError(e))
  }

  /** Once a group fails, the groups after it are never observed: two
      requests whose groups up to and including the failing one encode
      alike produce the same result, whatever their later groups hold. */
  lemma LaterGroupsNotObserved(ext: Codec, rs1: RequestSchemas, args1: map<string, Value>,
                               rs2: RequestSchemas, args2: map<string, Value>, k: int)
    requires 0 <= k < |GroupOrder|
    requires forall j :: 0 <= j <= k ==>
      EncodeGroup(ext, rs1, args1, GroupOrder[j]) == EncodeGroup(ext, rs2, args2, GroupOrder[j])
    requires EncodeGroup(ext, rs1, args1, GroupOrder[k]).Err?
    ensures EncodeRequest(ext, rs1, args1) == EncodeRequest(ext, rs2, args2)
  {
  }

  /** Request headers with no declared schema fall back to `unknown`, not to
      the string-to-string record response headers fall back to: a value
      that is not a record passes on the request side and fails in a
      response variant. */
  lemma RequestHeadersDefaultToUnknown(ext: Codec, rs: RequestSchemas, args: map<string, Value>, rv: ResponseVariant)
    requires rs.headers == Ignored && rv.headers == Ignored
    ensures EncodeGroup(ext, rs, args, Headers) == Ok(Arg(args, "headers"))
    ensures EncodeGroup(ext, rs, map["headers" := Num(0)], Headers) == Ok(Num(0))
    ensures Encode(ext, HeadersSchema(rv), Num(0)).Err?
  {
  }
}
