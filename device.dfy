/**
 * The runtime's view of a device: the metadata sections it keeps from the
 * last xclbin (axlf container) registered on it, lookups of those
 * sections guarded by the container's UUID, and the command-queue sizing
 * that reads the embedded XML metadata.
 */
module Device {
  import opened Common
  import ErtSlots

  /** A 128-bit UUID; the all-zero UUID is the null UUID. */
  type Uuid = x: nat | x < 0x1_0000_0000_0000_0000_0000_0000_0000_0000

  const NULL_UUID: Uuid := 0

  /** A UUID converts to true exactly when it is not null. */
  predicate IsNull(id: Uuid) { id == NULL_UUID }

  /** The kinds of axlf sections; the ones the device keeps are named, all others are `OtherKind`. */
  datatype SectionKind =
    | EmbeddedMetadata
    | AieMetadata
    | IpLayout
    | Connectivity
    | MemTopology
    | OtherKind(code: nat)

  /** An entry of the container's section table. */
  datatype SectionHeader = SectionHeader(kind: SectionKind, sectionOffset: nat, sectionSize: nat)

  /** An axlf container: its bytes, the UUID in its header and its section table. */
  datatype Axlf = Axlf(bytes: seq<byte>, uuid: Uuid, headers: seq<SectionHeader>)

  /** Every section the table describes lies inside the container. */
  predicate WellFormed(top: Axlf)
  {
    forall i :: 0 <= i < |top.headers| ==>
      top.headers[i].sectionOffset + top.headers[i].sectionSize <= |top.bytes|
  }

  /** The section table's lookup: the first header of the given kind, if any. */
  function FindHeader(headers: seq<SectionHeader>, kind: SectionKind): (r: Option<SectionHeader>)
    ensures r.Some? ==> r.value in headers && r.value.kind == kind
    ensures r.None? <==> forall i :: 0 <= i < |headers| ==> headers[i].kind != kind
  {
    if headers == [] then None
    else if headers[0].kind == kind then Some(headers[0])
    else FindHeader(headers[1..], kind)
  }

  /** The bytes a header describes. */
  function SectionBytes(top: Axlf, h: SectionHeader): (data: seq<byte>)
    requires WellFormed(top) && h in top.headers
    ensures |data| == h.sectionSize
  {
    top.bytes[h.sectionOffset .. h.sectionOffset + h.sectionSize]
  }

  /** The kinds a device keeps from a registered container, in the order it copies them. */
  const RegisteredKinds: seq<SectionKind> := [EmbeddedMetadata, AieMetadata, IpLayout, Connectivity, MemTopology]

  /**
   * The table built by copying, kind by kind, each section of `kinds` the
   * container has; a kind already present keeps its first copy.
   */
  function Collect(top: Axlf, kinds: seq<SectionKind>): (m: map<SectionKind, seq<byte>>)
    requires WellFormed(top)
    ensures forall k :: k in m ==> k in kinds
  {
    if kinds == [] then map[]
    else
      var m := Collect(top, kinds[..|kinds| - 1]);
      var kind := kinds[|kinds| - 1];
      match FindHeader(top.headers, kind)
      case None => m
      case Some(h) => if kind in m then m else m[kind := SectionBytes(top, h)]
  }

  /** Collect keeps exactly the listed kinds the container has, each with the bytes its header describes. */
  lemma {:induction false} CollectHolds(top: Axlf, kinds: seq<SectionKind>, kind: SectionKind)
    requires WellFormed(top)
    ensures kind in Collect(top, kinds) <==> kind in kinds && FindHeader(top.headers, kind).Some?
    ensures kind in Collect(top, kinds) ==>
      Collect(top, kinds)[kind] == SectionBytes(top, FindHeader(top.headers, kind).value)
    decreases |kinds|
  {
    if kinds != [] {
      var init := kinds[..|kinds| - 1];
      CollectHolds(top, init, kind);
      assert kinds == init + [kinds[|kinds| - 1]];
    }
  }

  /** What registering a container leaves: exactly its sections of the five kept kinds, copied byte for byte. */
  lemma RegisteredSections(top: Axlf, kind: SectionKind)
    requires WellFormed(top)
    ensures kind in Collect(top, RegisteredKinds) <==>
      !kind.OtherKind? && FindHeader(top.headers, kind).Some?
    ensures kind in Collect(top, RegisteredKinds) ==>
      Collect(top, RegisteredKinds)[kind] == SectionBytes(top, FindHeader(top.headers, kind).value)
  {
    CollectHolds(top, RegisteredKinds, kind);
  }

  class Device {
    /** The metadata sections of the last registered container, by kind. */
    var axlfSections: map<SectionKind, seq<byte>>
    /** The UUID of the last registered container; null before any registration. */
    var xclbinUuid: Uuid

    constructor ()
      ensures axlfSections == map[] && IsNull(xclbinUuid)
    {
      axlfSections := map[];
      xclbinUuid := NULL_UUID;
    }

    /**
     * Forgets the sections of any earlier container and keeps a copy of the
     * five metadata sections `top` has, with its UUID.
     */
    method RegisterAxlf(top: Axlf)
      requires WellFormed(top)
      modifies this
      ensures xclbinUuid == top.uuid
      ensures axlfSections == Collect(top, RegisteredKinds)
    {
      axlfSections := map[];
      xclbinUuid := top.uuid;
      for i := 0 to |RegisteredKinds|
        invariant xclbinUuid == top.uuid
        invariant axlfSections == Collect(top, RegisteredKinds[..i])
      {
        var kind := RegisteredKinds[i];
        assert RegisteredKinds[..i + 1][..i] == RegisteredKinds[..i];
        var hdr := FindHeader(top.headers, kind);
        if hdr.None? {
          continue;
        }
        var data := top.bytes[hdr.value.sectionOffset .. hdr.value.sectionOffset + hdr.value.sectionSize];
        if kind !in axlfSections {
          axlfSections := axlfSections[kind := data];
        }
      }
      assert RegisteredKinds[..|RegisteredKinds|] == RegisteredKinds;
    }

    /**
     * The stored section of the given kind (None plays the source's null
     * pointer and zero size), after checking that a non-null `xclbinId`
     * names the registered container.
     */
    function GetAxlfSection(kind: SectionKind, xclbinId: Uuid): (r: Result<Option<seq<byte>>>)
      reads this
      ensures r.Err? <==> !IsNull(xclbinId) && xclbinId != xclbinUuid
      ensures r.Err? ==> r.error == XclbinIdMismatch
      ensures r.Ok? ==> (r.value.Some? <==> kind in axlfSections)
      ensures r.Ok? && r.value.Some? ==> r.value.value == axlfSections[kind]
    {
      if !IsNull(xclbinId) && xclbinId != xclbinUuid then Err(XclbinIdMismatch)
      else if kind in axlfSections then Ok(Some(axlfSections[kind]))
      else Ok(None)
    }

    /** As GetAxlfSection, but a missing section is an error too. */
    function GetAxlfSectionOrError(kind: SectionKind, xclbinId: Uuid): (r: Result<seq<byte>>)
      reads this
      ensures r.Err? <==> GetAxlfSection(kind, xclbinId).Err? || kind !in axlfSections
      ensures r.Err? && GetAxlfSection(kind, xclbinId).Ok? ==> r.error == NoSuchSection
      ensures r.Err? && GetAxlfSection(kind, xclbinId).Err? ==> r.error == XclbinIdMismatch
      ensures r.Ok? ==> GetAxlfSection(kind, xclbinId) == Ok(Some(r.value))
    {
      match GetAxlfSection(kind, xclbinId)
      case Err(e) => Err(e)
      case Ok(None) => Err(NoSuchSection)
      case Ok(Some(data)) => Ok(data)
    }

    /**
     * Command-queue sizing for the registered container: the sizing of
     * ErtSlots applied to its embedded XML metadata, which must exist.
     * `numCus` and `maxCuSize` stand for the XML queries of the xclbin
     * parser; `cqSize` and `configSlotSize` for the queue size and the
     * xrt.ini override.
     */
    method GetErtSlots(cqSize: nat, configSlotSize: nat, numCus: seq<byte> -> nat, maxCuSize: seq<byte> -> nat)
      returns (r: Result<(nat, nat)>)
      requires EmbeddedMetadata in axlfSections && configSlotSize == 0 ==>
        var xml := axlfSections[EmbeddedMetadata];
        ErtSlots.NoZeroDivisor(cqSize, numCus(xml), maxCuSize(xml))
      ensures EmbeddedMetadata !in axlfSections ==> r == Err(NoXmlMetadata)
      ensures EmbeddedMetadata in axlfSections ==>
        var xml := axlfSections[EmbeddedMetadata];
        r == ErtSlots.SlotPlan(cqSize, configSlotSize, numCus(xml), maxCuSize(xml))
    {
      var xml := GetAxlfSection(EmbeddedMetadata, NULL_UUID);
      if xml.Err? || xml.value.None? {
        return Err(NoXmlMetadata);
      }
      var data := xml.value.value;
      r := ErtSlots.GetErtSlots(cqSize, configSlotSize, numCus(data), maxCuSize(data));
    }
  }

  /**
   * Looking up a section right after registering `top`: with a null id or
   * the container's own id, exactly the kept sections of `top` are found,
   * with their bytes; any other id is refused.
   */
  lemma LookupAfterRegister(d: Device, top: Axlf, kind: SectionKind, xclbinId: Uuid)
    requires WellFormed(top)
    requires d.axlfSections == Collect(top, RegisteredKinds) && d.xclbinUuid == top.uuid
    ensures IsNull(xclbinId) || xclbinId == top.uuid ==>
      d.GetAxlfSection(kind, xclbinId) ==
        if !kind.OtherKind? && FindHeader(top.headers, kind).Some?
        then Ok(Some(SectionBytes(top, FindHeader(top.headers, kind).value)))
        else Ok(None)
    ensures !IsNull(xclbinId) && xclbinId != top.uuid ==> d.GetAxlfSection(kind, xclbinId) == Err(XclbinIdMismatch)
  {
    RegisteredSections(top, kind);
  }

  /** Sections of other kinds are never kept, so asking for one always fails. */
  lemma OtherKindsNeverFound(d: Device, top: Axlf, code: nat, xclbinId: Uuid)
    requires WellFormed(top)
    requires d.axlfSections == Collect(top, RegisteredKinds) && d.xclbinUuid == top.uuid
    ensures d.GetAxlfSectionOrError(OtherKind(code), xclbinId).Err?
  {
    RegisteredSections(top, OtherKind(code));
  }
}
