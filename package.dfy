/**
 * Package: a parcel travelling through the departments. Its route (Departments) lists the
 * departments still to visit, head first; Metadata is carried along untouched.
 *
 * The JSON serializer behind ToString and the JSON constructor is a parameter, a Codec; the
 * send/receive path relies on it being Sound: encoding gives non-blank text that decodes to
 * the same four properties.
 */
module Packages {
  import opened Results
  import opened Text
  import opened Data

  /** The four properties of a Package, as the serializer sees them. */
  datatype PackageData = PackageData(id: string, departments: seq<string>, metadata: seq<string>, parcel: Parcel)

  /** What JsonSerializer.Deserialize<Package> makes of a text. */
  datatype Decoded = Decoded(data: PackageData) | NullLiteral | Malformed

  /** JsonSerializer.Serialize(package) and JsonSerializer.Deserialize<Package>(json). */
  datatype Codec = Codec(encode: PackageData -> string, decode: string -> Decoded)

  ghost predicate Sound(codec: Codec)
  {
    forall d :: !IsWhiteSpace(codec.encode(d)) && codec.decode(codec.encode(d)) == Decoded(d)
  }

  datatype PackageError =
    | ParcelIsNull           // ArgumentNullException
    | NoDepartments          // ArgumentException
    | BlankDepartment        // ArgumentException
    | BlankJson              // ArgumentException
    | InvalidJson            // JsonException from the deserializer
    | NullPackage(json: string)  // InvalidOperationException

  /**
   * new Package(parcel, departments): the parcel is checked first, then the set, then each
   * name in enumeration order. None stands for null.
   */
  function Assemble(parcel: Option<Parcel>, departments: Option<seq<string>>, id: string): Result<PackageData, PackageError>
  {
    if parcel.None? then Err(ParcelIsNull)
    else if departments.None? || |departments.value| == 0 then Err(NoDepartments)
    else if exists i :: 0 <= i < |departments.value| && IsWhiteSpace(departments.value[i]) then Err(BlankDepartment)
    else Ok(PackageData(id, departments.value, [], parcel.value))
  }

  /** new Package(json): blank text is refused, then the decoded value's four properties are copied. */
  function Decode(codec: Codec, json: string): Result<PackageData, PackageError>
  {
    if IsWhiteSpace(json) then Err(BlankJson)
    else
      match codec.decode(json)
      case Malformed => Err(InvalidJson)
      case NullLiteral => Err(NullPackage(json))
      case Decoded(d) => Ok(d)
  }

  /**
   * A package is built exactly when the parcel is present and the set is a non-empty set of
   * non-blank names; it then routes through the set's names in order, each once, with no
   * metadata. Otherwise the first failing check names the exception.
   */
  lemma AssembleSpec(parcel: Option<Parcel>, departments: Option<seq<string>>, id: string)
    requires departments.Some? ==> Distinct(departments.value)
    ensures var r := Assemble(parcel, departments, id);
      && (r.Ok? <==> parcel.Some? && departments.Some? && |departments.value| > 0 &&
                     forall i :: 0 <= i < |departments.value| ==> !IsWhiteSpace(departments.value[i]))
      && (r.Ok? ==> r.value.parcel == parcel.value && r.value.id == id && r.value.metadata == [] &&
                    Distinct(r.value.departments) &&
                    forall x :: x in r.value.departments <==> x in departments.value)
      && (parcel.None? ==> r == Err(ParcelIsNull))
      && (parcel.Some? && (departments.None? || departments.value == []) ==> r == Err(NoDepartments))
      && (r.Ok? ==> r.value.departments == departments.value)
      && (parcel.Some? && departments.Some? && |departments.value| > 0 &&
          (exists i :: 0 <= i < |departments.value| && IsWhiteSpace(departments.value[i])) ==>
            r == Err(BlankDepartment))
  {
  }

  /** The JSON constructor undoes ToString: a package read back has the four properties it was sent with. */
  lemma DecodeEncode(codec: Codec, d: PackageData)
    requires Sound(codec)
    ensures Decode(codec, codec.encode(d)) == Ok(d)
  {
  }

  /** A decoded package is exactly what the deserializer produced, and blank text never gets that far. */
  lemma DecodeSpec(codec: Codec, json: string)
    ensures Decode(codec, json).Ok? <==> !IsWhiteSpace(json) && codec.decode(json).Decoded?
    ensures Decode(codec, json).Ok? ==> codec.decode(json) == Decoded(Decode(codec, json).value)
    ensures IsWhiteSpace(json) ==> Decode(codec, json) == Err(BlankJson)
  {
  }

  class Package {
    var id: string
    var departments: seq<string>
    var metadata: seq<string>
    var parcel: Parcel

    function Data(): PackageData
      reads this
    {
      PackageData(id, departments, metadata, parcel)
    }

    constructor Init(d: PackageData)
      ensures Data() == d
    {
      id := d.id;
      departments := d.departments;
      metadata := d.metadata;
      parcel := d.parcel;
    }

    /** Package(): a fresh id, no route, no metadata and an empty parcel. */
    constructor(id: string)
      ensures Data() == PackageData(id, [], [], DefaultParcel())
    {
      this.id := id;
      departments := [];
      metadata := [];
      parcel := DefaultParcel();
    }

    /** Package.ToString(): the JSON text of the four properties. */
    function ToString(codec: Codec): string
      reads this
    {
      codec.encode(Data())
    }

    /** new Package(parcel, departments): check, then append the names to the route one by one. */
    static method New(parcel: Option<Parcel>, departments: Option<seq<string>>, id: string)
      returns (r: Result<Package, PackageError>)
      requires departments.Some? ==> Distinct(departments.value)
      ensures r.Ok? ==> fresh(r.value) && Assemble(parcel, departments, id) == Ok(r.value.Data())
      ensures r.Err? ==> Assemble(parcel, departments, id) == Err(r.error)
    {
      if parcel.None? {
        return Err(ParcelIsNull);
      }
      if departments.None? || |departments.value| == 0 {
        return Err(NoDepartments);
      }
      var names := departments.value;
      var route: seq<string> := [];
      for i := 0 to |names|
        invariant route == names[..i]
        invariant forall k :: 0 <= k < i ==> !IsWhiteSpace(names[k])
      {
        if IsWhiteSpace(names[i]) {
          return Err(BlankDepartment);
        }
        route := route + [names[i]];
      }
      assert route == names;
      var p := new Package.Init(PackageData(id, route, [], parcel.value));
      r := Ok(p);
    }

    /** new Package(json): refuse blank text, deserialize, refuse null, copy the four properties. */
    static method FromJson(codec: Codec, json: string) returns (r: Result<Package, PackageError>)
      ensures r.Ok? ==> fresh(r.value) && Decode(codec, json) == Ok(r.value.Data())
      ensures r.Err? ==> Decode(codec, json) == Err(r.error)
    {
      if IsWhiteSpace(json) {
        return Err(BlankJson);
      }
      var package := codec.decode(json);
      if package.Malformed? {
        return Err(InvalidJson);
      }
      if package.NullLiteral? {
        return Err(NullPackage(json));
      }
      var p := new Package.Init(package.data);
      r := Ok(p);
    }
  }
}
