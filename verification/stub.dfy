/**
 * The stub: the viewer program at the front of every protected executable. It reads the footer
 * at the end of its own file, consults the launch counter in the registry, deciphers the payload
 * into a temporary .dwg file, hands that file to the viewer and erases it afterwards.
 */
module Stub {
  import opened Wrappers
  import opened CLib
  import opened CadLocker
  import opened Platform

  // ---------------------------------------------------------------- reading the executable

  /**
   * read_footer: fseek(-16, SEEK_END) fails on a file shorter than the footer; otherwise the last
   * 16 bytes are the footer, which is accepted only when its magic field is MAGIC_MARKER.
   */
  function ReadFooter(exe: seq<byte>): (r: Option<Footer>)
    ensures r.Some? <==> |exe| >= FooterSize && exe[|exe| - 8..] == MagicMarker
  {
    if |exe| < FooterSize then None
    else
      var footer := DecodeFooter(exe[|exe| - FooterSize..]);
      assert footer.magic == exe[|exe| - 8..];
      if footer.magic != MagicMarker then None else Some(footer)
  }

  /** An accepted footer is exactly the last 16 bytes of the file. */
  lemma ReadFooterIsTail(exe: seq<byte>)
    requires ReadFooter(exe).Some?
    ensures EncodeFooter(ReadFooter(exe).value) == exe[|exe| - FooterSize..]
    ensures ReadFooter(exe).value.magic == MagicMarker
  {
    FooterBytesRoundTrip(exe[|exe| - FooterSize..]);
  }

  /**
   * The fseek offset extract_payload computes: payload_size + FOOTER_SIZE in 64 bits, narrowed to a
   * 32-bit long, then negated (a negated LONG_MIN stays LONG_MIN).
   */
  function PayloadOffset(payloadSize: U64): (r: int)
    ensures IntMin <= r <= IntMax
  {
    WrapInt32(-WrapInt32((payloadSize + FooterSize) % TwoTo64))
  }

  /** When payload and footer together fit in a long, the offset is plainly minus their size. */
  lemma PayloadOffsetWithoutWrap(payloadSize: U64)
    requires payloadSize + FooterSize <= IntMax
    ensures PayloadOffset(payloadSize) == -(payloadSize + FooterSize)
  {
  }

  /**
   * When payload and footer together just exceed LONG_MAX, the (long) cast makes their size
   * negative and the negation makes the offset positive: the seek goes past the end of the file.
   */
  lemma PayloadOffsetPositiveJustAboveLongMax(payloadSize: U64)
    requires TwoTo31 < payloadSize + FooterSize < TwoTo31 + FooterSize
    ensures PayloadOffset(payloadSize) == TwoTo32 - (payloadSize + FooterSize) > 0
  {
    var size := payloadSize + FooterSize;
    assert size % TwoTo64 == size;
    assert size % TwoTo32 == size;
    assert WrapInt32(size) == size - TwoTo32;
    assert (-(size - TwoTo32)) % TwoTo32 == TwoTo32 - size;
  }

  /**
   * fseek(offset, SEEK_END) followed by fread of payload_size bytes: the seek fails when the position
   * falls before the start of the file, and the read fails when fewer bytes than asked for follow the
   * position (a position past the end has none).
   */
  function PayloadRead(exe: seq<byte>, payloadSize: U64): (r: Option<seq<byte>>)
    ensures r.Some? ==> |r.value| == payloadSize
  {
    var pos := |exe| + PayloadOffset(payloadSize);
    if pos < 0 then None
    else if pos > |exe| || |exe| - pos < payloadSize then None
    else Some(exe[pos..pos + payloadSize])
  }

  /**
   * In a file that a 32-bit long can address, the read succeeds exactly when payload and footer fit
   * in the file, and then yields the payload_size bytes just before the footer: the narrowing of
   * the offset never points the read elsewhere.
   */
  lemma PayloadReadInAddressableFile(exe: seq<byte>, payloadSize: U64)
    requires |exe| <= IntMax
    ensures PayloadRead(exe, payloadSize).Some? <==> payloadSize + FooterSize <= |exe|
    ensures payloadSize + FooterSize <= |exe| ==>
      PayloadRead(exe, payloadSize).value == exe[|exe| - FooterSize - payloadSize..|exe| - FooterSize]
  {
    if payloadSize + FooterSize <= |exe| {
      PayloadOffsetWithoutWrap(payloadSize);
    } else if payloadSize + FooterSize <= IntMax {
      PayloadOffsetWithoutWrap(payloadSize);
    }
  }

  /** The plaintext the stub recovers from an executable: the payload before a valid footer, deciphered. */
  function Unpack(exe: seq<byte>): (r: Option<seq<byte>>)
    ensures r.Some? ==> ReadFooter(exe).Some? && |r.value| == ReadFooter(exe).value.payloadSize
  {
    match ReadFooter(exe)
    case None => None
    case Some(footer) =>
      match PayloadRead(exe, footer.payloadSize)
      case None => None
      case Some(payload) => Some(Xored(payload))
  }

  // ---------------------------------------------------------------- the temporary file name

  /** The name extract_payload gives the plaintext: the temporary name with its last extension replaced by ".dwg". */
  function WithDwgExtension(tempName: string): string
  {
    TruncateAtLast(tempName, '.') + ".dwg"
  }

  /**
   * The new name ends in ".dwg" and begins with the temporary name up to its last dot, or with the
   * whole temporary name when it has no dot.
   */
  lemma WithDwgExtensionReplacesExtension(tempName: string)
    ensures var r := WithDwgExtension(tempName);
      && |r| >= 4 && r[|r| - 4..] == ".dwg"
      && r[..|r| - 4] <= tempName
      && ('.' in tempName ==> tempName[|r| - 4] == '.' && AbsentAfter(tempName, |r| - 4, '.'))
      && ('.' !in tempName ==> r[..|r| - 4] == tempName)
  {
    var stem := TruncateAtLast(tempName, '.');
    assert WithDwgExtension(tempName)[..|stem|] == stem;
  }

  // ---------------------------------------------------------------- the launch counter

  /**
   * get_launch_count: the stored DWORD read through an (int) cast, and 0 when the key or the value
   * cannot be read (the first launch).
   */
  function StoredCount(stored: Option<U32>): (r: int)
    ensures stored.None? ==> r == 0
    ensures stored.Some? ==> IntMin <= r <= IntMax && (r - stored.value) % TwoTo32 == 0
    ensures stored.Some? ==> (r >= 0 <==> stored.value < TwoTo31)
  {
    if stored.None? then 0 else SignedFromDword(stored.value)
  }

  /** get_launch_count on the registry. */
  function GetLaunchCount(reg: Registry): (r: int)
    reads reg
    requires reg.Valid()
    ensures !reg.keyExists ==> r == 0
  {
    StoredCount(reg.Query())
  }

  /** The DWORD increment_launch_count stores: the value read (0 if none) plus one, modulo 2^32. */
  function NextStored(stored: Option<U32>): (r: U32)
    ensures stored.None? ==> r == 1
    ensures stored.Some? && stored.value < TwoTo32 - 1 ==> r == stored.value + 1
    ensures stored.Some? && stored.value == TwoTo32 - 1 ==> r == 0
  {
    ((if stored.None? then 0 else stored.value) + 1) % TwoTo32
  }

  /**
   * increment_launch_count: opens or creates the key, adds one to the stored count and writes it
   * back; -1 when the key cannot be created or the value cannot be written, else the new count as
   * an int.
   */
  method IncrementLaunchCount(reg: Registry) returns (r: int)
    requires reg.Valid()
    modifies reg
    ensures reg.Valid()
    ensures reg.createFails ==> r == -1 && reg.keyExists == old(reg.keyExists)
    ensures !reg.createFails ==> reg.keyExists
    ensures reg.createFails || reg.setFails ==> r == -1 && reg.launchCount == old(reg.launchCount)
    ensures !reg.createFails && !reg.setFails ==>
      reg.launchCount == Some(NextStored(old(reg.Query()))) && r == SignedFromDword(NextStored(old(reg.Query())))
    ensures r != -1 ==> GetLaunchCount(reg) == r
  {
    ghost var before := reg.Query();
    var created := reg.CreateKey();
    if !created {
      return -1;
    }
    var count: U32 := if reg.launchCount.None? then 0 else reg.launchCount.value;
    count := (count + 1) % TwoTo32;
    assert count == NextStored(before);
    var written := reg.SetValue(count);
    if !written {
      return -1;
    }
    r := SignedFromDword(count);
  }

  // ---------------------------------------------------------------- the launch decision

  /** WinMain's check: a positive limit that the count has reached refuses the launch; a limit of 0 never does. */
  function Granted(maxLaunches: int, count: int): (granted: bool)
    ensures maxLaunches <= 0 ==> granted
    ensures maxLaunches > 0 ==> (granted <==> count < maxLaunches)
  {
    !(maxLaunches > 0 && count >= maxLaunches)
  }

  /** The number in the "views remaining" message: limit - count - 1 in 32-bit int arithmetic. */
  function Remaining(maxLaunches: int, count: int): (r: int)
    ensures IntMin <= r <= IntMax
    ensures IntMin <= maxLaunches - count - 1 <= IntMax && IntMin <= maxLaunches - count <= IntMax ==>
      r == maxLaunches - count - 1
  {
    WrapInt32(WrapInt32(maxLaunches - count) - 1)
  }

  /** Without a limit every launch is granted, whatever the registry holds. */
  lemma UnlimitedAlwaysGranted(count: int)
    ensures Granted(0, count)
  {
  }

  /**
   * A stored count of 2^31 or more reads back negative through the (int) cast, so the launch is
   * granted however many launches that count records.
   */
  lemma HugeStoredCountIsGranted(stored: U32)
    requires stored >= TwoTo31
    ensures StoredCount(Some(stored)) < 0
    ensures Granted(MaxLaunchCount, StoredCount(Some(stored)))
  {
  }

  /**
   * The registry value after one run that reaches the check, when the registry accepts every write:
   * a granted run stores the next count, a refused one leaves the value alone.
   */
  function AfterRun(stored: Option<U32>): (r: Option<U32>)
    ensures stored.None? ==> r == Some(1)
    ensures stored.Some? && stored.value < MaxLaunchCount ==> r == Some(stored.value + 1)
    ensures stored.Some? && MaxLaunchCount <= stored.value < TwoTo31 ==> r == stored
    ensures stored.Some? && stored.value >= TwoTo31 ==> r == Some(NextStored(stored))
  {
    if Granted(MaxLaunchCount, StoredCount(stored)) then Some(NextStored(stored)) else stored
  }

  /**
   * What `runs` successive launches show, starting from the stored value: Some(remaining) for each
   * granted launch, None for each refused one.
   */
  function Launches(stored: Option<U32>, runs: nat): (r: seq<Option<int>>)
    ensures |r| == runs
    ensures !Granted(MaxLaunchCount, StoredCount(stored)) ==> forall j :: 0 <= j < runs ==> r[j].None?
    ensures forall i, j :: 0 <= i <= j < runs && r[i].None? ==> r[j].None?
    decreases runs
  {
    if runs == 0 then []
    else
      var count := StoredCount(stored);
      var shown := if Granted(MaxLaunchCount, count) then Some(Remaining(MaxLaunchCount, count)) else None;
      var rest := Launches(AfterRun(stored), runs - 1);
      var r := [shown] + rest;
      assert forall j :: 1 <= j < runs ==> r[j] == rest[j - 1];
      r
  }

  /**
   * On a fresh registry the first MAX_LAUNCH_COUNT launches are granted, announcing 4, 3, 2, 1 and
   * 0 views remaining, and every later launch is refused.
   */
  lemma FreshRegistryGrantsMaxLaunches(runs: nat)
    ensures forall i :: 0 <= i < runs ==>
      Launches(None, runs)[i] == if i < MaxLaunchCount then Some(MaxLaunchCount - 1 - i) else None
  {
    LaunchesFromCount(None, 0, runs);
  }

  /** From a stored count k between 0 and the limit, launch i is granted exactly when k + i is below the limit. */
  lemma {:induction false} LaunchesFromCount(stored: Option<U32>, k: nat, runs: nat)
    requires k <= MaxLaunchCount && StoredCount(stored) == k
    requires stored.Some? ==> stored.value == k
    decreases runs
    ensures forall i :: 0 <= i < runs ==>
      Launches(stored, runs)[i] == if k + i < MaxLaunchCount then Some(MaxLaunchCount - 1 - k - i) else None
  {
    if runs > 0 {
      var next := AfterRun(stored);
      if k < MaxLaunchCount {
        assert next == Some(k + 1);
        LaunchesFromCount(next, k + 1, runs - 1);
      } else {
        assert next == stored;
        LaunchesFromCount(next, k, runs - 1);
      }
      assert Launches(stored, runs)[1..] == Launches(next, runs - 1);
    }
  }

  // ---------------------------------------------------------------- extracting the payload

  /**
   * extract_payload. `tempName` is the name GetTempFileNameA chose in the temporary directory, None
   * when GetTempPathA or GetTempFileNameA fails. The placeholder it creates is deleted again, the
   * payload is read, deciphered and written to the ".dwg" name, and a short write deletes that file.
   * The result is the path of the plaintext file.
   */
  method ExtractPayload(vol: Volume, exe: seq<byte>, footer: Footer, tempName: Option<string>)
    returns (path: Option<string>)
    modifies vol
    ensures tempName.None? || tempName.value in vol.locked ==>
      path.None? && vol.files == old(vol.files) && vol.free == old(vol.free)
    ensures tempName.Some? && tempName.value !in vol.locked ==>
      var cleared := old(vol.files) - {tempName.value};
      var dwg := WithDwgExtension(tempName.value);
      var data := PayloadRead(exe, footer.payloadSize);
      if data.None? || dwg in vol.locked then
        path.None? && vol.files == cleared && vol.free == old(vol.free)
      else if old(vol.free) < |data.value| then
        path.None? && vol.files == cleared - {dwg} && vol.free == 0
      else
        path == Some(dwg) && vol.files == cleared[dwg := Xored(data.value)]
        && vol.free == old(vol.free) - |data.value|
  {
    path := None;
    if tempName.None? {
      return;
    }
    var placeholder := tempName.value;
    var made := vol.Create(placeholder);
    if !made {
      return;
    }
    var dwg := WithDwgExtension(placeholder);
    var _ := vol.Delete(placeholder);
    assert vol.files == old(vol.files) - {placeholder};

    var data := PayloadRead(exe, footer.payloadSize);
    if data.None? {
      return;
    }
    var buffer := NewBuffer(data.value);
    XorCrypt(buffer);

    var created := vol.Create(dwg);
    if !created {
      return;
    }
    var written := vol.Append(dwg, buffer[..]);
    if written != footer.payloadSize {
      var _ := vol.Delete(dwg);
      return;
    }
    assert [] + buffer[..][..written] == Xored(data.value);
    path := Some(dwg);
  }

  // ---------------------------------------------------------------- erasing the plaintext

  /**
   * The zero pass of secure_delete_file on a file it could open: ftell gives the size (-1 past the
   * reach of a 32-bit long, which skips the pass) and the file is overwritten from the start with
   * zeros, at most 4096 bytes (the size of its zero buffer) per write.
   */
  method OverwriteWithZeros(vol: Volume, path: string)
    requires path in vol.files && path !in vol.locked
    modifies vol
    ensures var length := |old(vol.files[path])|;
      vol.files == old(vol.files)[path := if length <= LongMax then Zeros(length) else old(vol.files[path])]
    ensures vol.free == old(vol.free)
  {
    ghost var original := vol.files[path];
    var length := |vol.files[path]|;
    var size := Ftell(length);
    var total := if size > 0 then size else 0;
    var offset := 0;
    while size > 0
      invariant 0 <= offset <= total <= length
      invariant offset + (if size > 0 then size else 0) == total
      invariant vol.free == old(vol.free)
      invariant path in vol.files && |vol.files[path]| == length
      invariant vol.files == old(vol.files)[path := vol.files[path]]
      invariant forall j :: 0 <= j < length ==> vol.files[path][j] == if j < offset then 0 else original[j]
      decreases size
    {
      var toWrite := if size > ZeroBufferSize then ZeroBufferSize else size;
      WriteZeros(vol, path, offset, toWrite);
      size := size - toWrite;
      offset := offset + toWrite;
    }
    if length <= LongMax {
      assert vol.files[path] == Zeros(length);
    } else {
      assert vol.files[path] == original;
    }
  }

  /** The zero buffer of secure_delete_file. */
  const ZeroBufferSize: nat := 4096

  /**
   * One fwrite of `count` bytes from the zero buffer at `offset` in a file opened with "r+b"; the
   * buffer holds ZeroBufferSize bytes, so no write may ask for more.
   */
  method WriteZeros(vol: Volume, path: string, offset: nat, count: nat)
    requires count <= ZeroBufferSize
    requires path in vol.files && offset + count <= |vol.files[path]|
    modifies vol
    ensures path in vol.files && |vol.files[path]| == |old(vol.files[path])|
    ensures vol.files == old(vol.files)[path := vol.files[path]]
    ensures forall j :: 0 <= j < |vol.files[path]| ==>
      vol.files[path][j] == if offset <= j < offset + count then 0 else old(vol.files[path])[j]
    ensures vol.free == old(vol.free)
  {
    vol.Overwrite(path, offset, Zeros(count));
  }

  /**
   * secure_delete_file: a file that cannot be opened for update is only passed to DeleteFileA;
   * otherwise it is overwritten with zeros and then deleted. The result is DeleteFileA's.
   */
  method SecureDeleteFile(vol: Volume, path: string) returns (ok: bool)
    modifies vol
    ensures ok == (path in old(vol.files) && path !in vol.locked)
    ensures vol.files == if ok then old(vol.files) - {path} else old(vol.files)
    ensures vol.free == old(vol.free)
  {
    if path !in vol.files || path in vol.locked {
      ok := vol.Delete(path);
      return;
    }
    OverwriteWithZeros(vol, path);
    ok := vol.Delete(path);
  }

  // ---------------------------------------------------------------- the program

  /**
   * WinMain of the stub, from the moment it knows its own path. `tempName` stands for the
   * temporary name the system would choose. The result gives the exit code, the count of remaining
   * views the information box announces, the bytes the viewer is given to open, and whether
   * self_delete is called to schedule the container's deletion.
   * A refused launch leaves the files and the counter alone and requests that deletion; a granted
   * one counts the launch before anything else can fail, and on success erases the plaintext.
   */
  method RunStub(vol: Volume, reg: Registry, exePath: string, tempName: Option<string>)
    returns (exitCode: int, remaining: Option<int>, viewed: Option<seq<byte>>, selfDelete: bool)
    requires reg.Valid()
    modifies vol, reg
    ensures reg.Valid()
    ensures exitCode == 0 || exitCode == 1
    ensures selfDelete <==>
      && exePath in old(vol.files) && ReadFooter(old(vol.files[exePath])).Some?
      && !Granted(MaxLaunchCount, StoredCount(old(reg.Query())))
    ensures (|| exePath !in old(vol.files) || ReadFooter(old(vol.files[exePath])).None?
             || !Granted(MaxLaunchCount, StoredCount(old(reg.Query())))) ==>
      && exitCode == 1 && remaining.None? && viewed.None?
      && vol.files == old(vol.files) && vol.free == old(vol.free)
      && reg.keyExists == old(reg.keyExists) && reg.launchCount == old(reg.launchCount)
    ensures (&& exePath in old(vol.files) && ReadFooter(old(vol.files[exePath])).Some?
             && Granted(MaxLaunchCount, StoredCount(old(reg.Query())))) ==>
      && remaining == Some(Remaining(MaxLaunchCount, StoredCount(old(reg.Query()))))
      && reg.launchCount == (if reg.createFails || reg.setFails then old(reg.launchCount)
                             else Some(NextStored(old(reg.Query()))))
      && (exitCode == 0 <==>
            && tempName.Some? && tempName.value !in vol.locked
            && WithDwgExtension(tempName.value) !in vol.locked
            && Unpack(old(vol.files[exePath])).Some?
            && |Unpack(old(vol.files[exePath])).value| <= old(vol.free))
    ensures exitCode == 0 ==>
      && viewed == Unpack(old(vol.files[exePath]))
      && tempName.Some?
      && vol.files == old(vol.files) - {tempName.value} - {WithDwgExtension(tempName.value)}
    ensures exitCode == 1 ==> viewed.None?
    ensures exePath in old(vol.files) && ReadFooter(old(vol.files[exePath])).Some? ==>
      && remaining == Launches(old(reg.Query()), 1)[0]
      && (!reg.createFails && !reg.setFails ==> reg.Query() == AfterRun(old(reg.Query())))
  {
    exitCode, remaining, viewed, selfDelete := 1, None, None, false;
    if exePath !in vol.files {
      return;
    }
    var exe := vol.files[exePath];
    var footer := ReadFooter(exe);
    if footer.None? {
      return;
    }

    var count := GetLaunchCount(reg);
    if MaxLaunchCount > 0 && count >= MaxLaunchCount {
      selfDelete := true;
      return;
    }
    var _ := IncrementLaunchCount(reg);
    if MaxLaunchCount > 0 {
      remaining := Some(Remaining(MaxLaunchCount, count));
    }

    var temp := ExtractPayload(vol, exe, footer.value, tempName);
    if temp.None? {
      return;
    }
    viewed := Some(vol.files[temp.value]);
    var erased := SecureDeleteFile(vol, temp.value);
    // The plaintext file could be created, so it is not locked and the delete succeeds: the
    // fallback DeleteFileA after a failed secure delete has nothing left to do.
    assert erased;
    exitCode := 0;
  }
}
