/** The part of the schema library that the contract layer relies on.

    Values are JSON-like. Schemas are a small closed set of combinators
    (`unknown`, a string-to-string record, a numeric literal, `struct`,
    `union`) plus `External` schemas declared by the application, whose
    behaviour is an opaque `Codec` passed in by the caller. Only encoding is
    modelled: it is the direction the request encoder and the response
    schema are used in. */
module Schemas {
  import opened Results

  datatype Value =
    | Undefined                       // an absent property
    | IgnoredMarker                   // the `IgnoredSchemaId` symbol used as a value
    | Num(n: int)
    | Str(s: string)
    | Bool(b: bool)
    | Obj(fields: map<string, Value>)
    | Opaque(token: nat)              // any other host value

  /** The diagnostic a failing schema produces (`ParseError`), abstracted. */
  datatype Diag =
    | NotAStringRecord
    | LiteralMismatch(expected: int)
    | NotAnObject
    | MissingKey(key: string)
    | AtKey(key: string, inner: Diag)
    | NoMatchingMember
    | ExternalDiag(code: nat)

  datatype Schema =
    | Unknown                         // `Schema.unknown`: passes every value through
    | StringRecord                    // `Schema.record(Schema.string, Schema.string)`
    | Literal(literal: int)           // `Schema.literal(n)`
    | Struct(fields: seq<Field>)      // `Schema.struct({...})`
    | Union(members: seq<Schema>)     // `Schema.union(...)`
    | External(id: nat)               // a schema supplied by the application

  datatype Field = Field(name: string, schema: Schema)

  /** What an application-supplied schema does to a value. */
  type Codec = (nat, Value) -> Result<Value, Diag>

  predicate IsStringRecord(v: Value) {
    v.Obj? && forall k :: k in v.fields ==> v.fields[k].Str?
  }

  /** `Schema.encode(s)(v)`. */
  function Encode(ext: Codec, s: Schema, v: Value): Result<Value, Diag>
    decreases s
  {
    match s
    case Unknown => Ok(v)
    case StringRecord => if IsStringRecord(v) then Ok(v) else Err(NotAStringRecord)
    case Literal(n) => if v == Num(n) then Ok(v) else Err(LiteralMismatch(n))
    case Struct(fields) =>
      if !v.Obj? then Err(NotAnObject)
      else
        (match EncodeFields(ext, fields, v.fields)
         case Ok(m) => Ok(Obj(m))
         case Err(d) => Err(d))
    case Union(ms) => EncodeMembers(ext, ms, v)
    case External(id) => ext(id, v)
  }

  /** The declared fields of a struct, encoded in declaration order; the
      first failing field stops the encoding, and keys the struct does not
      declare are dropped from the output. */
  function EncodeFields(ext: Codec, fields: seq<Field>, m: map<string, Value>): Result<map<string, Value>, Diag>
    decreases fields
  {
    if fields == [] then Ok(map[])
    else
      var f := fields[0];
      if f.name !in m then Err(MissingKey(f.name))
      else
        match Encode(ext, f.schema, m[f.name])
        case Err(d) => Err(AtKey(f.name, d))
        case Ok(x) =>
          match EncodeFields(ext, fields[1..], m)
          case Err(d) => Err(d)
          case Ok(rest) => Ok(rest[f.name := x])
  }

  /** A union encodes a value with the first member that accepts it. */
  function EncodeMembers(ext: Codec, ms: seq<Schema>, v: Value): Result<Value, Diag>
    decreases ms
  {
    if ms == [] then Err(NoMatchingMember)
    else
      match Encode(ext, ms[0], v)
      case Ok(x) => Ok(x)
      case Err(_) => EncodeMembers(ext, ms[1..], v)
  }

  function Names(fields: seq<Field>): set<string> {
    if fields == [] then {} else {fields[0].name} + Names(fields[1..])
  }

  predicate DistinctNames(fields: seq<Field>) {
    forall i, j :: 0 <= i < j < |fields| ==> fields[i].name != fields[j].name
  }

  /** A struct accepts an object exactly when every declared key is present
      and its value is accepted by that field's schema. */
  lemma {:induction false} EncodeFieldsAccepts(ext: Codec, fields: seq<Field>, m: map<string, Value>)
    ensures EncodeFields(ext, fields, m).Ok? <==>
      forall i :: 0 <= i < |fields| ==>
        fields[i].name in m && Encode(ext, fields[i].schema, m[fields[i].name]).Ok?
    decreases fields
  {
    if fields != [] {
      EncodeFieldsAccepts(ext, fields[1..], m);
      assert forall i :: 1 <= i < |fields| ==> fields[i] == fields[1..][i - 1];
    }
  }

  /** The encoded struct holds exactly the declared keys, each with its
      field's encoding of the input's value. */
  lemma {:induction false} EncodeFieldsOutput(ext: Codec, fields: seq<Field>, m: map<string, Value>)
    requires DistinctNames(fields)
    ensures EncodeFields(ext, fields, m).Ok? ==> EncodeFields(ext, fields, m).value.Keys == Names(fields)
    ensures EncodeFields(ext, fields, m).Ok? ==>
      forall i :: 0 <= i < |fields| ==>
        && fields[i].name in m
        && fields[i].name in EncodeFields(ext, fields, m).value
        && Encode(ext, fields[i].schema, m[fields[i].name]).Ok?
        && EncodeFields(ext, fields, m).value[fields[i].name] == Encode(ext, fields[i].schema, m[fields[i].name]).value
    decreases fields
  {
    if fields != [] && EncodeFields(ext, fields, m).Ok? {
      EncodeFieldsAccepts(ext, fields, m);
      EncodeFieldsOutput(ext, fields[1..], m);
      assert forall i :: 1 <= i < |fields| ==> fields[i] == fields[1..][i - 1];
    }
  }

  /** A union accepts a value exactly when one of its members does, and the
      encoding is that of the first member that accepts it. */
  lemma {:induction false} EncodeMembersFirstMatch(ext: Codec, ms: seq<Schema>, v: Value)
    ensures EncodeMembers(ext, ms, v).Ok? <==> exists i :: 0 <= i < |ms| && Encode(ext, ms[i], v).Ok?
    ensures forall i ::
      (0 <= i < |ms| && Encode(ext, ms[i], v).Ok? && forall j :: 0 <= j < i ==> Encode(ext, ms[j], v).Err?) ==>
      EncodeMembers(ext, ms, v) == Encode(ext, ms[i], v)
    decreases ms
  {
    if ms != [] {
      EncodeMembersFirstMatch(ext, ms[1..], v);
      assert forall i :: 1 <= i < |ms| ==> ms[i] == ms[1..][i - 1];
      forall i | 0 <= i < |ms| && Encode(ext, ms[i], v).Ok?
                 && (forall j :: 0 <= j < i ==> Encode(ext, ms[j], v).Err?)
        ensures EncodeMembers(ext, ms, v) == Encode(ext, ms[i], v)
      {
        if i > 0 {
          assert forall j :: 0 <= j < i - 1 ==> Encode(ext, ms[1..][j], v).Err? by {
            forall j | 0 <= j < i - 1 ensures Encode(ext, ms[1..][j], v).Err? {
              assert ms[1..][j] == ms[j + 1];
            }
          }
        }
      }
    }
  }
}
