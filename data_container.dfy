/**
 * `DataContainer`: the fields of a packet's variable header or payload.  A
 * container holds one field in a slot of its own and moves to a list once a
 * second field is added; a property-list field added or set is also kept
 * aside as the container's properties.  The C# struct is updated in place by
 * its methods, so it is a class here.
 */
module DataContainers {
  import opened Bytes
  import opened PacketData

  /** The sizes of the fields of `l` from the `i`-th on, summed; an unmeasurable field fails the sum. */
  function SizeFrom(l: seq<Data>, i: nat): Result<nat>
    requires i <= |l|
    decreases |l| - i
  {
    if i == |l| then Ok(0)
    else
      match ByteSize(l[i])
      case Err(e) => Err(e)
      case Ok(n) => AddSize(n, SizeFrom(l, i + 1))
  }

  /** The bytes of the fields of `l` from the `i`-th on, one after the other. */
  function EncodeFrom(l: seq<Data>, i: nat): Result<seq<Byte>>
    requires i <= |l|
    decreases |l| - i
  {
    if i == |l| then Ok([])
    else
      match Encode(l[i])
      case Err(e) => Err(e)
      case Ok(b) => Prepend(b, EncodeFrom(l, i + 1))
  }

  function Prepend(b: seq<Byte>, r: Result<seq<Byte>>): Result<seq<Byte>>
  {
    if r.Err? then r else Ok(b + r.value)
  }

  /** Nothing written first changes nothing; two pieces written first are their concatenation. */
  lemma PrependConcat(a: seq<Byte>, b: seq<Byte>, r: Result<seq<Byte>>)
    ensures Prepend([], r) == r
    ensures Prepend(a, Prepend(b, r)) == Prepend(a + b, r)
  {
    if r.Ok? {
      assert [] + r.value == r.value;
      assert a + (b + r.value) == a + b + r.value;
    }
  }

  /** Fields that can be written take exactly the bytes their sizes add up to. */
  lemma {:induction false} EncodeFromSize(l: seq<Data>, i: nat)
    requires i <= |l|
    ensures EncodeFrom(l, i).Ok? ==> SizeFrom(l, i) == Ok(|EncodeFrom(l, i).value|)
    decreases |l| - i
  {
    if i < |l| {
      EncodedSize(l[i]);
      EncodeFromSize(l, i + 1);
    }
  }

  /**
   * The fields in order: the list once there is one, else the single slot
   * when it is set, else none.
   */
  function FieldsOf(field: Data, fields: Option<seq<Data>>): seq<Data>
  {
    if fields.Some? then fields.value else if IsSet(field) then [field] else []
  }

  class DataContainer {
    /** `_field`: the single field, before a second one is added. */
    var field: Data
    /** `_fields`: the list, `None` while `null`. */
    var fields: Option<seq<Data>>
    /** `_properties`: the last property-list field added or set. */
    var properties: Data

    /** The list exists only once it holds two fields, and then the single slot is empty. */
    ghost predicate Valid()
      reads this
    {
      fields.Some? ==> |fields.value| >= 2 && !IsSet(field)
    }

    function Contents(): seq<Data>
      reads this
    {
      FieldsOf(field, fields)
    }

    /** The container of a new packet, whose slots all hold their defaults. */
    constructor()
      ensures Valid() && Contents() == [] && properties == Empty()
    {
      field, fields, properties := Empty(), None, Empty();
    }

    /** `Count`: the list's length, else 1 when the single slot is set, else 0. */
    function Count(): (n: nat)
      reads this
      requires Valid()
      ensures n == |Contents()|
      ensures n == 0 <==> fields.None? && !IsSet(field)
    {
      if fields.Some? then |fields.value| else if IsSet(field) then 1 else 0
    }

    /** `Properties`: the list of the last property-list field added or set. */
    function Properties(): Properties
      reads this
    {
      properties.properties
    }

    /**
     * The indexer's getter: a field of the list, failing outside it, or the
     * single slot whatever the index while there is no list.
     */
    function Get(idx: int): (r: Result<Data>)
      reads this
      requires Valid()
      ensures 0 <= idx < Count() ==> r == Ok(Contents()[idx])
      ensures r.Err? <==> fields.Some? && !(0 <= idx < Count())
      ensures fields.None? ==> r == Ok(field)
    {
      if fields.Some? then
        if 0 <= idx < |fields.value| then Ok(fields.value[idx]) else Err("index out of range")
      else Ok(field)
    }

    /**
     * The indexer's setter: replaces a field of the list, failing outside it,
     * or the single slot whatever the index while there is no list.
     */
    method SetAt(idx: int, value: Data) returns (r: Result<()>)
      requires Valid()
      modifies this
      ensures Valid() && properties == old(properties)
      ensures old(fields).Some? && 0 <= idx < old(Count()) ==>
                r.Ok? && Contents() == old(Contents())[idx := value]
      ensures old(fields).Some? && !(0 <= idx < old(Count())) ==>
                r.Err? && Contents() == old(Contents())
      ensures old(fields).None? ==> r.Ok? && Contents() == FieldsOf(value, None)
    {
      if fields.Some? {
        if !(0 <= idx < |fields.value|) {
          return Err("index out of range");
        }
        fields := Some(fields.value[idx := value]);
      } else {
        field := value;
      }
      return Ok(());
    }

    /**
     * `Add`: appends the field, moving the single slot into a new list when a
     * second field arrives.  An unset field added to an empty container
     * takes the empty slot and so adds nothing.
     */
    method Add(data: Data)
      requires Valid()
      modifies this
      ensures Valid()
      ensures Contents() == if old(Contents()) == [] && !IsSet(data) then [] else old(Contents()) + [data]
      ensures properties == if data.dtype == PropertyList then data else old(properties)
    {
      if fields.Some? {
        fields := Some(fields.value + [data]);
      } else if IsSet(field) {
        fields := Some([field, data]);
        field := Empty();
      } else {
        field := data;
      }
      if data.dtype == PropertyList {
        properties := data;
      }
    }

    /** `Set`: the field replaces everything the container held. */
    method Set(data: Data)
      requires Valid()
      modifies this
      ensures Valid() && fields.None?
      ensures Contents() == if IsSet(data) then [data] else []
      ensures properties == if data.dtype == PropertyList then data else old(properties)
    {
      fields := None;
      field := data;
      if data.dtype == PropertyList {
        properties := data;
      }
    }

    /** `CalculateByteSize`: the single slot's size, else the sum over the list, else 0. */
    method CalculateByteSize() returns (r: Result<nat>)
      requires Valid()
      ensures r == SizeFrom(Contents(), 0)
    {
      if IsSet(field) {
        return AddSize(0, ByteSize(field));
      } else if fields.Some? {
        var l := fields.value;
        var size: nat := 0;
        for i := 0 to |l|
          invariant SizeFrom(l, 0) == AddSize(size, SizeFrom(l, i))
        {
          var n := ByteSize(l[i]);
          if n.Err? {
            return Err(n.reason);
          }
          size := size + n.value;
        }
        return Ok(size);
      }
      return Ok(0);
    }

    /** `EncodeInto`: the single slot's bytes, else every field of the list in order, else nothing. */
    method EncodeInto() returns (r: Result<seq<Byte>>)
      requires Valid()
      ensures r == EncodeFrom(Contents(), 0)
    {
      if IsSet(field) {
        var b := Encode(field);
        if b.Err? {
          return Err(b.reason);
        }
        assert b.value + [] == b.value;
        return Ok(b.value);
      } else if fields.Some? {
        var l := fields.value;
        var bytes := [];
        PrependConcat([], [], EncodeFrom(l, 0));
        for i := 0 to |l|
          invariant EncodeFrom(l, 0) == Prepend(bytes, EncodeFrom(l, i))
        {
          var b := Encode(l[i]);
          if b.Err? {
            return Err(b.reason);
          }
          PrependConcat(bytes, b.value, EncodeFrom(l, i + 1));
          bytes := bytes + b.value;
        }
        assert bytes + [] == bytes;
        return Ok(bytes);
      }
      return Ok([]);
    }
  }

  /** What a container writes is exactly as long as `CalculateByteSize` says. */
  lemma ContainerEncodedSize(c: DataContainer)
    ensures EncodeFrom(c.Contents(), 0).Ok? ==> SizeFrom(c.Contents(), 0) == Ok(|EncodeFrom(c.Contents(), 0).value|)
  {
    EncodeFromSize(c.Contents(), 0);
  }
}
