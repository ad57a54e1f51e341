/** The loops of crates/ost-build/src/macho.rs, proved against the walk that `MachO` specifies. */
module MachOScan {
  import opened Prelude
  import opened Versions
  import opened Bytes
  import opened MachO

  /** `scan_thin`. */
  method ScanThin(bytes: seq<byte>) returns (floor: Floor)
    ensures floor == Thin(bytes)
  {
    hide Contribution, Absorb, U32, Size;
    floor := NOTHING;
    if U32(bytes, 0) != Some(MACHO_MAGIC_64) {
      return;
    }
    var announced := U32(bytes, 16);
    if announced.None? {
      return;
    }
    var offset: nat := HEADER;
    AbsorbAssociates(Thin(bytes), NOTHING, NOTHING);
    for k := 0 to announced.value
      invariant Absorb(floor, ThinFrom(bytes, offset, announced.value - k)) == Thin(bytes)
    {
      AbsorbAssociates(floor, NOTHING, NOTHING);
      if !Accepts(bytes, offset) {
        return;
      }
      var here := Contribution(bytes, offset);
      AbsorbAssociates(floor, here, ThinFrom(bytes, offset + Size(bytes, offset), announced.value - k - 1));
      floor := Absorb(floor, here);
      offset := offset + Size(bytes, offset);
    }
    AbsorbAssociates(floor, NOTHING, NOTHING);
  }

  /** `fat_slice_offsets`. */
  method FatSliceOffsets(bytes: seq<byte>) returns (r: Option<seq<nat>>)
    ensures r == if IsFat(bytes) then Some(OffsetsFrom(bytes, 0)) else None
  {
    hide BigEndian;
    var magic := BigEndian(bytes, 0, 4);
    if magic != Some(FAT_MAGIC) && magic != Some(FAT_MAGIC_64) {
      return None;
    }
    if BigEndian(bytes, 4, 4).None? {
      return None;
    }
    hide SliceAt, IsFat;
    var offsets: seq<nat>, i := [], 0;
    while i < SliceCount(bytes)
      invariant i <= SliceCount(bytes) && offsets + OffsetsFrom(bytes, i) == OffsetsFrom(bytes, 0)
    {
      var offset := SliceAt(bytes, i);
      if offset.None? {
        break;
      }
      offsets := offsets + [offset.value];
      i := i + 1;
    }
    assert offsets + OffsetsFrom(bytes, i) == offsets;
    return Some(offsets);
  }

  /** `scan_image`: the whole image is in memory. */
  method ScanImage(bytes: seq<byte>) returns (floor: Floor)
    ensures floor == ImageFloor(bytes)
  {
    hide IsFat, Thin, Absorb;
    var offsets := FatSliceOffsets(bytes);
    if offsets.None? {
      floor := ScanThin(bytes);
      return;
    }
    floor := NOTHING;
    ThinOfNothing();
    for i := 0 to |offsets.value|
      invariant floor == SlicesFloor(bytes, offsets.value, i, false)
    {
      var offset := offsets.value[i];
      AbsorbAssociates(floor, NOTHING, NOTHING);
      if offset < |bytes| {
        var slice := ScanThin(bytes[offset..]);
        floor := Absorb(floor, slice);
      }
    }
  }

  lemma ThinOfNothing()
    ensures Thin([]) == NOTHING
  {
  }

  /** `take(limit).read_to_end` from an offset, at or past the end giving nothing. */
  function ReadFrom(file: seq<byte>, offset: nat): seq<byte> {
    Windowed(From(file, offset))
  }

  lemma BigEndianInHead(s: seq<byte>, o: nat, width: nat)
    requires o + width <= MAX_LOAD_COMMANDS
    ensures BigEndian(Windowed(s), o, width) == BigEndian(s, o, width)
  {
    if o + width <= |s| {
      assert Windowed(s)[o..o + width] == s[o..o + width];
    }
  }

  lemma HeadIsFat(s: seq<byte>)
    ensures IsFat(Windowed(s)) <==> IsFat(s)
    ensures IsFat(s) ==> SliceCount(Windowed(s)) == SliceCount(s)
  {
    BigEndianInHead(s, 0, 4);
    BigEndianInHead(s, 4, 4);
    hide BigEndian, Windowed;
  }

  /** The slice table lies inside the window, so the head shows all of it. */
  lemma {:induction false} HeadHoldsTable(s: seq<byte>, i: nat)
    requires IsFat(s) && IsFat(Windowed(s)) && SliceCount(Windowed(s)) == SliceCount(s)
    ensures OffsetsFrom(Windowed(s), i) == OffsetsFrom(s, i)
    decreases SliceCount(s) - i
  {
    if i < SliceCount(s) {
      BigEndianInHead(s, 0, 4);
      BigEndianInHead(s, 8 + i * 32 + 8, 8);
      BigEndianInHead(s, 8 + i * 20 + 8, 4);
      hide BigEndian, Windowed;
      HeadHoldsTable(s, i + 1);
    }
  }

  /** `scan_file` on an open regular file with these contents. */
  method ScanFile(file: seq<byte>) returns (floor: Floor)
    ensures floor == FileFloor(file)
  {
    hide IsFat, Thin, Absorb, Windowed, OffsetsFrom;
    var head := ReadFrom(file, 0);
    assert From(file, 0) == file;
    HeadIsFat(file);
    var offsets := FatSliceOffsets(head);
    if offsets.None? {
      floor := ScanImage(head);
      return;
    }
    HeadHoldsTable(file, 0);
    floor := NOTHING;
    for i := 0 to |offsets.value|
      invariant floor == SlicesFloor(file, offsets.value, i, true)
    {
      var slice := ReadFrom(file, offsets.value[i]);
      var here := ScanThin(slice);
      floor := Absorb(floor, here);
    }
  }

  /** `max_macos_floor`: each file's report is at most the floor, which absorbs nothing else. */
  method MaxMacosFloor(files: seq<seq<byte>>) returns (floor: Floor)
    ensures forall i | 0 <= i < |files| :: Below(FileFloor(files[i]), floor)
    ensures floor.target.Some? ==> exists i | 0 <= i < |files| :: FileFloor(files[i]).target == floor.target
    ensures floor.sdk.Some? ==> exists i | 0 <= i < |files| :: FileFloor(files[i]).sdk == floor.sdk
  {
    hide FileFloor;
    floor := NOTHING;
    for i := 0 to |files|
      invariant forall j | 0 <= j < i :: Below(FileFloor(files[j]), floor)
      invariant floor.target.Some? ==> exists j | 0 <= j < i :: FileFloor(files[j]).target == floor.target
      invariant floor.sdk.Some? ==> exists j | 0 <= j < i :: FileFloor(files[j]).sdk == floor.sdk
    {
      var here := ScanFile(files[i]);
      floor := Absorb(floor, here);
    }
  }
}
