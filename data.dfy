/**
 * `Data`, `Property` and `Properties`: the typed fields packets are built
 * from, and the property list of section 2.2.2 of the OASIS MQTT Version 5.0
 * standard.  A `Data` keeps its value in the slot its type selects; a `Data`
 * holds a `Properties` and a `Properties` holds `Data`, so the three share
 * this module.  All three are C# structs, so they are values here and an
 * operation that changes one returns the changed value.
 *
 * Strings are their UTF-8 bytes, `null` is `None`, and a buffer segment is
 * the bytes it spans.
 */
module PacketData {
  import opened Bytes
  import DataEncoderHelper

  datatype DataType =
    | UnSet | Bits | Bool | SingleByte | TwoByteInteger | FourByteInteger | VariableByteInteger
    | UTF8String | UTF8StringPair | Binary | PropertyList | Raw

  /**
   * `Data`: the type, then the slots of the C# struct: the bit field, the
   * integer, the string pair (a single string uses the key), the binary
   * buffer and the property list.
   */
  datatype Data = Data(dtype: DataType, bits: bv8, integer: UInt32, key: Option<seq<Byte>>,
                       value: Option<seq<Byte>>, binary: seq<Byte>, properties: Properties)

  /** `Property`: the property's identifier (`PacketProperties`) and its value. */
  datatype Property = Property(id: UInt32, data: Data)

  /** `Properties`: the list of properties, which is created by the first property added. */
  datatype Properties = NotCreated | Created(items: seq<Property>)

  // The identifiers of `PacketProperties`.
  const PayloadFormatIndicator: UInt32 := 0x01
  const MessageExpiryInterval: UInt32 := 0x02
  const ContentType: UInt32 := 0x03
  const ResponseTopic: UInt32 := 0x08
  const CorrelationData: UInt32 := 0x09
  const SubscriptionIdentifier: UInt32 := 0x0B
  const SessionExpiryInterval: UInt32 := 0x11
  const AssignedClientIdentifier: UInt32 := 0x12
  const ServerKeepAlive: UInt32 := 0x13
  const AuthenticationMethod: UInt32 := 0x15
  const AuthenticationData: UInt32 := 0x16
  const RequestProblemInformation: UInt32 := 0x17
  const WillDelayInterval: UInt32 := 0x18
  const RequestResponseInformation: UInt32 := 0x19
  const ResponseInformation: UInt32 := 0x1A
  const ServerReference: UInt32 := 0x1C
  const ReasonString: UInt32 := 0x1F
  const ReceiveMaximum: UInt32 := 0x21
  const TopicAliasMaximum: UInt32 := 0x22
  const TopicAlias: UInt32 := 0x23
  const MaximumQoS: UInt32 := 0x24
  const RetainAvailable: UInt32 := 0x25
  const UserProperty: UInt32 := 0x26
  const MaximumPacketSize: UInt32 := 0x27
  const WildcardSubscriptionAvailable: UInt32 := 0x28
  const SubscriptionIdentifierAvailable: UInt32 := 0x29
  const SharedSubscriptionAvailable: UInt32 := 0x2A

  // ------------------------------------------------------------ constructors

  predicate IsSet(d: Data) { d.dtype != UnSet }

  function Empty(): Data { Data(UnSet, 0, 0, None, None, [], NotCreated) }

  function FromBitField(bits: bv8): Data { Empty().(dtype := Bits, bits := bits) }
  function FromBool(v: bool): Data { Empty().(dtype := Bool, integer := if v then 1 else 0) }
  /** The C# cast `(byte)` keeps the low eight bits of the `int`. */
  function FromByte(v: int): Data { Empty().(dtype := SingleByte, integer := v % 0x100) }
  function FromTwoByteInteger(v: UInt32): Data { Empty().(dtype := TwoByteInteger, integer := v) }
  function FromFourByteInteger(v: UInt32): Data { Empty().(dtype := FourByteInteger, integer := v) }
  function FromVariableByteInteger(v: UInt32): Data { Empty().(dtype := VariableByteInteger, integer := v) }
  function FromString(s: Option<seq<Byte>>): Data { Empty().(dtype := UTF8String, key := s) }
  function FromStringPair(k: Option<seq<Byte>>, v: Option<seq<Byte>>): Data
  {
    Empty().(dtype := UTF8StringPair, key := k, value := v)
  }
  /** A `null` array becomes the empty segment. */
  function FromArray(buffer: Option<seq<Byte>>): Data
  {
    Empty().(dtype := Binary, binary := if buffer.None? then [] else buffer.value)
  }
  function FromRaw(buffer: Option<seq<Byte>>): Data
  {
    Empty().(dtype := Raw, binary := if buffer.None? then [] else buffer.value)
  }
  function FromProperties(ps: Properties): Data { Empty().(dtype := PropertyList, properties := ps) }

  /** `FromByte` keeps only the low eight bits: -1 becomes 255 and 256 becomes 0. */
  lemma FromByteLowBits(v: int)
    ensures FromByte(v).integer < 0x100 && FromByte(v).integer == FromByte(v + 0x100).integer
    ensures 0 <= v < 0x100 ==> FromByte(v).integer == v
    ensures FromByte(-1).integer == 0xFF && FromByte(0x100).integer == 0
  {
  }

  // ---------------------------------------------------------------- byte sizes

  /**
   * `Data.CalculateByteSize`: the bytes the field takes on the wire; an unset
   * field cannot be measured.  Sizes are not truncated to 32 bits.
   */
  function ByteSize(d: Data): Result<nat>
    decreases d
  {
    match d.dtype
    case Bits => Ok(1)
    case Bool => Ok(1)
    case SingleByte => Ok(1)
    case TwoByteInteger => Ok(2)
    case FourByteInteger => Ok(4)
    case VariableByteInteger => Ok(|DataEncoderHelper.VbiEncode(d.integer)|)
    case UTF8String => Ok(DataEncoderHelper.CalculateByteSize(d.key))
    case UTF8StringPair => Ok(DataEncoderHelper.CalculateByteSize(d.key) + DataEncoderHelper.CalculateByteSize(d.value))
    case Binary => Ok(2 + |d.binary|)
    case PropertyList => PropertiesByteSize(d.properties, true)
    case Raw => Ok(|d.binary|)
    case UnSet => Err("UnSet in CalculateByteSize")
  }

  /** `Property.CalculateByteSize`: the identifier as a Variable Byte Integer, then the value. */
  function PropertyByteSize(p: Property): Result<nat>
    decreases p
  {
    match ByteSize(p.data)
    case Err(e) => Err(e)
    case Ok(n) => Ok(|DataEncoderHelper.VbiEncode(p.id)| + n)
  }

  /** The sum of the sizes of the properties from the `i`-th on. */
  function ListByteSize(ps: Properties, i: nat): Result<nat>
    requires ps.Created? && i <= |ps.items|
    decreases ps, |ps.items| - i
  {
    if i == |ps.items| then Ok(0)
    else
      match PropertyByteSize(ps.items[i])
      case Err(e) => Err(e)
      case Ok(n) =>
        match ListByteSize(ps, i + 1)
        case Err(e) => Err(e)
        case Ok(m) => Ok(n + m)
  }

  /**
   * `Properties.CalculateByteSize`: the sum of the properties' sizes, plus the
   * length of that sum as a Variable Byte Integer when `withSize`; a list never
   * created takes the one byte of a zero length.
   */
  function PropertiesByteSize(ps: Properties, withSize: bool): Result<nat>
    decreases ps
  {
    if ps.NotCreated? then Ok(|DataEncoderHelper.VbiEncode(0)|)
    else
      match ListByteSize(ps, 0)
      case Err(e) => Err(e)
      case Ok(size) => Ok(if withSize then size + |DataEncoderHelper.VbiEncode(size)| else size)
  }

  // ------------------------------------------------------------------ encoding

  /**
   * `Data.EncodeInto`: the bytes the field writes.  Integers are cast to the
   * width of their type first; an unset field and an over-long string or
   * binary cannot be written.
   */
  function Encode(d: Data): Result<seq<Byte>>
    decreases d
  {
    match d.dtype
    case Bits => Ok([d.bits as Byte])
    case Bool => Ok([d.integer % 0x100])
    case SingleByte => Ok([d.integer % 0x100])
    case TwoByteInteger => Ok(DataEncoderHelper.EncodeTwoByteInteger(d.integer % 0x1_0000))
    case FourByteInteger => Ok(DataEncoderHelper.EncodeFourByteInteger(d.integer))
    case VariableByteInteger => Ok(DataEncoderHelper.VbiEncode(d.integer))
    case UTF8String => DataEncoderHelper.EncodeUTF8String(d.key)
    case UTF8StringPair => DataEncoderHelper.EncodeUTF8StringPair(d.key, d.value)
    case Binary => DataEncoderHelper.EncodeBinary(d.binary)
    case PropertyList => EncodeProperties(d.properties)
    case Raw => Ok(d.binary)
    case UnSet => Err("UnSet in EncodeInto")
  }

  /** `Property.EncodeInto`: the identifier as a Variable Byte Integer, then the value. */
  function EncodeProperty(p: Property): Result<seq<Byte>>
    decreases p
  {
    match Encode(p.data)
    case Err(e) => Err(e)
    case Ok(b) => Ok(DataEncoderHelper.VbiEncode(p.id) + b)
  }

  /** The bytes of the properties from the `i`-th on. */
  function EncodeList(ps: Properties, i: nat): Result<seq<Byte>>
    requires ps.Created? && i <= |ps.items|
    decreases ps, |ps.items| - i
  {
    if i == |ps.items| then Ok([])
    else
      match EncodeProperty(ps.items[i])
      case Err(e) => Err(e)
      case Ok(b) =>
        match EncodeList(ps, i + 1)
        case Err(e) => Err(e)
        case Ok(c) => Ok(b + c)
  }

  /**
   * `Properties.EncodeInto`: the properties' total size as a Variable Byte
   * Integer, then each property; a list never created writes a zero length.
   */
  function EncodeProperties(ps: Properties): Result<seq<Byte>>
    decreases ps
  {
    if ps.NotCreated? then Ok(DataEncoderHelper.VbiEncode(0))
    else
      match PropertiesByteSize(ps, false)
      case Err(e) => Err(e)
      case Ok(size) =>
        match EncodeList(ps, 0)
        case Err(e) => Err(e)
        case Ok(b) => Ok(DataEncoderHelper.VbiEncode(size) + b)
  }

  /** What a field writes is exactly as long as `CalculateByteSize` says. */
  lemma {:induction false} EncodedSize(d: Data)
    ensures Encode(d).Ok? ==> ByteSize(d) == Ok(|Encode(d).value|)
    decreases d
  {
    match d.dtype
    case PropertyList => PropertiesEncodedSize(d.properties);
    case _ =>
  }

  lemma {:induction false} PropertyEncodedSize(p: Property)
    ensures EncodeProperty(p).Ok? ==> PropertyByteSize(p) == Ok(|EncodeProperty(p).value|)
    decreases p
  {
    EncodedSize(p.data);
  }

  lemma {:induction false} ListEncodedSize(ps: Properties, i: nat)
    requires ps.Created? && i <= |ps.items|
    ensures EncodeList(ps, i).Ok? ==> ListByteSize(ps, i) == Ok(|EncodeList(ps, i).value|)
    decreases ps, |ps.items| - i
  {
    if i < |ps.items| {
      PropertyEncodedSize(ps.items[i]);
      ListEncodedSize(ps, i + 1);
    }
  }

  /** What a property list writes is exactly `CalculateByteSize(true)` long. */
  lemma {:induction false} PropertiesEncodedSize(ps: Properties)
    ensures EncodeProperties(ps).Ok? ==> PropertiesByteSize(ps, true) == Ok(|EncodeProperties(ps).value|)
    decreases ps
  {
    if ps.Created? {
      ListEncodedSize(ps, 0);
    }
  }

  /** An unset field can be neither measured nor written. */
  lemma UnSetFails(d: Data)
    requires !IsSet(d)
    ensures ByteSize(d).Err? && Encode(d).Err?
  {
  }

  // ----------------------------------------------------------- property lists

  /** The properties in the list, none when it was never created. */
  function Items(ps: Properties): seq<Property>
  {
    if ps.NotCreated? then [] else ps.items
  }

  /** `Count`: the number of properties, 0 when the list was never created. */
  function Count(ps: Properties): (n: nat)
    ensures n == |Items(ps)|
  {
    if ps.NotCreated? then 0 else |ps.items|
  }

  /** `IsPresent`: scans the list for a property of the type. */
  method IsPresent(ps: Properties, id: UInt32) returns (present: bool)
    ensures present <==> exists i :: 0 <= i < |Items(ps)| && Items(ps)[i].id == id
  {
    var items := Items(ps);
    var i := 0;
    while i < |items|
      invariant 0 <= i <= |items|
      invariant forall j :: 0 <= j < i ==> items[j].id != id
    {
      if items[i].id == id {
        return true;
      }
      i := i + 1;
    }
    return false;
  }

  /** `ThrowIfPresent`: a protocol error exactly when a property of the type is present. */
  method ThrowIfPresent(ps: Properties, id: UInt32) returns (r: Result<()>)
    ensures r.Err? <==> exists i :: 0 <= i < |Items(ps)| && Items(ps)[i].id == id
  {
    var present := IsPresent(ps, id);
    if present {
      return Err("property already added");
    }
    return Ok(());
  }

  /** `AddProperty`: creates the list when needed and appends, duplicates allowed. */
  function AddProperty(ps: Properties, p: Property): (r: Properties)
    ensures r.Created? && Items(r) == Items(ps) + [p]
  {
    if ps.NotCreated? then Created([p]) else Created(ps.items + [p])
  }

  /** `List.RemoveAll` with the predicate "has type `id`". */
  function Without(l: seq<Property>, id: UInt32): seq<Property>
  {
    if l == [] then []
    else if l[0].id == id then Without(l[1..], id)
    else [l[0]] + Without(l[1..], id)
  }

  /** `RemoveProperty`: every property of the type goes; a list never created stays so. */
  function RemoveProperty(ps: Properties, id: UInt32): (r: Properties)
    ensures r.NotCreated? <==> ps.NotCreated?
  {
    if ps.NotCreated? then ps else Created(Without(ps.items, id))
  }

  /**
   * After `RemoveProperty` no property has the type, every other property is
   * kept, and the list is only ever shortened from the properties removed.
   */
  lemma {:induction false} WithoutSpec(l: seq<Property>, id: UInt32)
    ensures forall q :: q in Without(l, id) <==> q in l && q.id != id
    ensures |Without(l, id)| <= |l|
    ensures (forall q :: q in l ==> q.id != id) ==> Without(l, id) == l
  {
    if l != [] {
      WithoutSpec(l[1..], id);
      assert l == [l[0]] + l[1..];
    }
  }

  /** Removal keeps the order: it works on the two halves of a list separately. */
  lemma {:induction false} WithoutConcat(a: seq<Property>, b: seq<Property>, id: UInt32)
    ensures Without(a + b, id) == Without(a, id) + Without(b, id)
  {
    if a != [] {
      assert (a + b)[1..] == a[1..] + b;
      WithoutConcat(a[1..], b, id);
    } else {
      assert a + b == b;
    }
  }

  /** Removing a type right after adding a property of that type forgets the addition. */
  lemma RemoveAfterAdd(ps: Properties, p: Property)
    requires ps.Created?
    ensures RemoveProperty(AddProperty(ps, p), p.id) == RemoveProperty(ps, p.id)
  {
    WithoutConcat(ps.items, [p], p.id);
    assert Without([p], p.id) == [];
    assert Without(ps.items, p.id) + [] == Without(ps.items, p.id);
  }

  /** The default `Property` that `Find` returns when nothing matches. */
  function DefaultProperty(): Property { Property(0, Empty()) }

  /** `Find`: the first property of the type, or the default property. */
  method Find(ps: Properties, id: UInt32) returns (p: Property)
    ensures (exists i :: 0 <= i < |Items(ps)| && Items(ps)[i].id == id) ==>
              exists i :: 0 <= i < |Items(ps)| && Items(ps)[i] == p && p.id == id
                          && forall j :: 0 <= j < i ==> Items(ps)[j].id != id
    ensures (forall i :: 0 <= i < |Items(ps)| ==> Items(ps)[i].id != id) ==> p == DefaultProperty()
  {
    var items := Items(ps);
    var i := 0;
    while i < |items|
      invariant 0 <= i <= |items|
      invariant forall j :: 0 <= j < i ==> items[j].id != id
    {
      if items[i].id == id {
        return items[i];
      }
      i := i + 1;
    }
    return DefaultProperty();
  }

  /** The property `TryFindData` accepts: of the type, set, and holding the data type asked for. */
  predicate Holds(p: Property, id: UInt32, dataType: DataType)
  {
    p.id == id && IsSet(p.data) && p.data.dtype == dataType
  }

  /** The data of the first property of `l`, from the `i`-th on, that `Holds`. */
  function FindFrom(l: seq<Property>, i: nat, id: UInt32, dataType: DataType): (r: Option<Data>)
    requires i <= |l|
    decreases |l| - i
  {
    if i == |l| then None
    else if Holds(l[i], id, dataType) then Some(l[i].data)
    else FindFrom(l, i + 1, id, dataType)
  }

  /** `TryFindData` as a value: the data found, if any. */
  function FindData(ps: Properties, id: UInt32, dataType: DataType): Option<Data>
  {
    FindFrom(Items(ps), 0, id, dataType)
  }

  /**
   * What `FindData` finds has the type and the data type asked for, and it
   * finds nothing only when no property holds both.
   */
  lemma {:induction false} FindFromSpec(l: seq<Property>, i: nat, id: UInt32, dataType: DataType)
    requires i <= |l|
    ensures FindFrom(l, i, id, dataType).Some? <==> exists k :: i <= k < |l| && Holds(l[k], id, dataType)
    ensures FindFrom(l, i, id, dataType).Some? ==>
              var d := FindFrom(l, i, id, dataType).value;
              IsSet(d) && d.dtype == dataType
    decreases |l| - i
  {
    if i < |l| && !Holds(l[i], id, dataType) {
      FindFromSpec(l, i + 1, id, dataType);
      if exists k :: i <= k < |l| && Holds(l[k], id, dataType) {
        var k :| i <= k < |l| && Holds(l[k], id, dataType);
        assert k != i;
      }
    }
  }

  /**
   * `TryFindData`: the data of the first property that has both the type and
   * the data type; a property of the type with another data type is passed
   * over.  Nothing found gives the empty data.
   */
  method TryFindData(ps: Properties, id: UInt32, dataType: DataType) returns (found: bool, data: Data)
    ensures found == FindData(ps, id, dataType).Some?
    ensures data == if found then FindData(ps, id, dataType).value else Empty()
    ensures found <==> exists i :: 0 <= i < |Items(ps)| && Holds(Items(ps)[i], id, dataType)
    ensures found ==> exists i :: 0 <= i < |Items(ps)| && Holds(Items(ps)[i], id, dataType)
                                  && Items(ps)[i].data == data
                                  && forall j :: 0 <= j < i ==> !Holds(Items(ps)[j], id, dataType)
    ensures !found ==> data == Empty()
  {
    var items := Items(ps);
    var i := 0;
    while i < |items|
      invariant 0 <= i <= |items|
      invariant forall j :: 0 <= j < i ==> !Holds(items[j], id, dataType)
      invariant FindFrom(items, i, id, dataType) == FindData(ps, id, dataType)
    {
      var prop := items[i];
      if prop.id == id && IsSet(prop.data) && prop.data.dtype == dataType {
        return true, prop.data;
      }
      i := i + 1;
    }
    return false, Empty();
  }

  /** `Properties.CalculateByteSize`, the loop summing the properties' sizes. */
  method CalculateByteSize(ps: Properties, withSize: bool) returns (r: Result<nat>)
    ensures r == PropertiesByteSize(ps, withSize)
  {
    if ps.NotCreated? {
      return Ok(|DataEncoderHelper.VbiEncode(0)|);
    }
    var l := ps.items;
    var size: nat := 0;
    var i := 0;
    while i < |l|
      invariant 0 <= i <= |l|
      invariant ListByteSize(ps, 0) == AddSize(size, ListByteSize(ps, i))
    {
      var n := PropertyByteSize(l[i]);
      if n.Err? {
        return Err(n.reason);
      }
      size := size + n.value;
      i := i + 1;
    }
    if withSize {
      size := size + |DataEncoderHelper.VbiEncode(size)|;
    }
    return Ok(size);
  }

  /** `n` added to a size that may have failed. */
  function AddSize(n: nat, r: Result<nat>): Result<nat>
  {
    if r.Err? then r else Ok(n + r.value)
  }
}
