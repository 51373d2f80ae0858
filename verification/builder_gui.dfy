/**
 * The drag-and-drop builder (builder_gui.c). It computes the same container as the command-line
 * builder, with three differences that the model keeps: its path helpers scan for the last
 * separator of either kind, it writes an extended 40-byte footer that carries the launch limit,
 * a build identifier and policy flags, and it ignores the results of its three writes.
 */
module BuilderGui {
  import opened Wrappers
  import opened CLib
  import opened CadLocker
  import opened Platform
  import Builder

  // ---------------------------------------------------------------- path helpers

  /** The scanning loop shared by get_filename and get_dir: remembers the last separator it passes. */
  method FindLastSeparator(s: string) returns (last: Option<nat>)
    ensures last == LastSeparator(s)
  {
    last := None;
    var i := 0;
    while i < |s|
      invariant 0 <= i <= |s|
      invariant last == LastSeparator(s[..i])
    {
      assert s[..i + 1][..i] == s[..i];
      if IsSeparator(s[i]) {
        last := Some(i);
      }
      i := i + 1;
    }
    assert s[..i] == s;
  }

  /** get_filename: the text after the last backslash or slash, or the whole path. */
  method GetFilename(path: string) returns (name: string)
    ensures name == FinalComponent(path)
  {
    var last := FindLastSeparator(path);
    if last.Some? {
      name := path[last.value + 1..];
    } else {
      name := path;
    }
  }

  /**
   * get_basename: the file name copied into a buffer of maxLen characters and cut at its last dot.
   * It names the same file as the command-line builder's two-step search.
   */
  method GetBasename(path: string, maxLen: nat) returns (name: string)
    requires maxLen >= 1
    ensures name == TruncateAtLast(BoundedCopy(FinalComponent(path), maxLen), '.')
    ensures name == Builder.GetBasename(path, maxLen)
  {
    var filename := GetFilename(path);
    name := TruncateAtLast(BoundedCopy(filename, maxLen), '.');
    Builder.GetBasenameOfFinalComponent(path, maxLen);
  }

  /**
   * The directory get_dir leaves in its buffer: the copy of the path kept through its last
   * separator of either kind, or ".\" when it has none.
   */
  function DirThroughLastSeparator(path: string, maxLen: nat): (dir: string)
    requires maxLen >= 3
    ensures var copy := BoundedCopy(path, maxLen);
      && (!NoSeparator(copy) ==>
            && 0 < |dir| && dir <= copy && IsSeparator(dir[|dir| - 1])
            && forall j :: |dir| <= j < |copy| ==> !IsSeparator(copy[j]))
      && (NoSeparator(copy) ==> dir == ".\\")
  {
    var copy := BoundedCopy(path, maxLen);
    match LastSeparator(copy)
    case Some(k) => copy[..k + 1]
    case None => ".\\"
  }

  /** get_dir: copies the path, scans the copy for its last separator and cuts after it. */
  method GetDir(path: string, maxLen: nat) returns (dir: string)
    requires maxLen >= 3
    ensures dir == DirThroughLastSeparator(path, maxLen)
  {
    var copy := BoundedCopy(path, maxLen);
    var last := FindLastSeparator(copy);
    if last.Some? {
      dir := copy[..last.value + 1];
    } else {
      dir := ".\\";
    }
  }

  /** In s, a slash follows the last backslash. */
  predicate SlashAfterLastBackslash(s: string)
  {
    LastIndex(s, '\\').Some? && LastIndex(s, '/').Some?
    && LastIndex(s, '/').value > LastIndex(s, '\\').value
  }

  /**
   * The two builders put an output in the same directory unless a slash follows the last
   * backslash of the (copied) design path: builder.c then stops at the backslash, the GUI at
   * the slash.
   */
  lemma DirRulesAgreeUnlessSlashAfterBackslash(path: string, maxLen: nat)
    requires maxLen >= 3
    ensures Builder.GetDir(path, maxLen) == DirThroughLastSeparator(path, maxLen)
        <==> !SlashAfterLastBackslash(BoundedCopy(path, maxLen))
  {
    var s := BoundedCopy(path, maxLen);
    var gui := DirThroughLastSeparator(path, maxLen);
    match LastIndex(s, '\\')
    case Some(k) =>
      LastSeparatorAtOrAfter(s, k);
      var k' := LastSeparator(s).value;
      if SlashAfterLastBackslash(s) {
        LastSeparatorAtOrAfter(s, LastIndex(s, '/').value);
        assert |gui| == k' + 1;
      } else {
        NoSlashAfterBackslash(s, k);
      }
    case None =>
      OnlySlashesSeparate(s);
  }

  lemma LastSeparatorAtOrAfter(s: string, k: nat)
    requires k < |s| && IsSeparator(s[k])
    ensures LastSeparator(s).Some? && LastSeparator(s).value >= k
  {
  }

  lemma NoSlashAfterBackslash(s: string, k: nat)
    requires LastIndex(s, '\\') == Some(k)
    requires !SlashAfterLastBackslash(s)
    ensures LastSeparator(s) == Some(k)
  {
    LastSeparatorAtOrAfter(s, k);
  }

  lemma OnlySlashesSeparate(s: string)
    requires '\\' !in s
    ensures LastSeparator(s) == LastIndex(s, '/')
  {
    match LastIndex(s, '/')
    case Some(j) => LastSlashIsLastSeparator(s, j);
    case None =>
  }

  lemma LastSlashIsLastSeparator(s: string, j: nat)
    requires '\\' !in s && LastIndex(s, '/') == Some(j)
    ensures LastSeparator(s) == Some(j)
  {
    LastSeparatorAtOrAfter(s, j);
  }

  /** A path with a slash after its last backslash: the builders choose different directories. */
  lemma MixedSeparatorsExample()
    ensures Builder.GetDir("C:\\cad/part.dwg", Builder.MaxPath) == "C:\\"
    ensures DirThroughLastSeparator("C:\\cad/part.dwg", Builder.MaxPath) == "C:\\cad/"
  {
    var p := "C:\\cad/part.dwg";
    assert BoundedCopy(p, Builder.MaxPath) == p;
    assert LastIndex(p, '\\') == Some(2);
    LastSeparatorAtOrAfter(p, 6);
    assert LastSeparator(p) == Some(6);
  }

  // ---------------------------------------------------------------- the dropped file

  /** handle_dropped_file's test: the text from the last dot equals ".dwg", ignoring case. */
  predicate IsDwgName(file: string)
  {
    match LastIndex(file, '.')
    case None => false
    case Some(k) => EqualIgnoringCase(file[k..], ".dwg")
  }

  /** A dropped file is accepted exactly when its last four characters spell ".dwg" in any case. */
  lemma IsDwgNameMeansDwgEnding(file: string)
    ensures IsDwgName(file) <==> |file| >= 4 && EqualIgnoringCase(file[|file| - 4..], ".dwg")
  {
    if |file| >= 4 && EqualIgnoringCase(file[|file| - 4..], ".dwg") {
      assert LowerAscii(file[|file| - 4]) == '.';
      assert file[|file| - 4] == '.';
      assert LowerAscii(file[|file| - 3]) == 'd' && LowerAscii(file[|file| - 2]) == 'w';
      assert LowerAscii(file[|file| - 1]) == 'g';
      assert AbsentAfter(file, |file| - 4, '.');
      assert LastIndex(file, '.') == Some(|file| - 4);
    }
  }

  /** The selected design file after a drop: the dropped file when it is a .dwg, otherwise unchanged. */
  function AfterDrop(selected: string, dropped: string): (r: string)
    ensures r == if |dropped| >= 4 && EqualIgnoringCase(dropped[|dropped| - 4..], ".dwg") then dropped else selected
  {
    IsDwgNameMeansDwgEnding(dropped);
    if IsDwgName(dropped) then dropped else selected
  }

  // ---------------------------------------------------------------- the extended footer

  /** Exactly sixteen bytes: the build identifier. */
  type Bytes16 = s: seq<byte> | |s| == 16 witness [0, 0, 0, 0, 0, 0, 0, 0, 0, 0, 0, 0, 0, 0, 0, 0]

  /**
   * The footer this builder fills: payload size, launch limit, build identifier, policy flags and
   * the magic, packed in that order.
   */
  datatype ExtendedFooter = ExtendedFooter(
    payloadSize: U64, maxLaunches: U32, fileId: Bytes16, securityFlags: U32, magic: Bytes8)

  const ExtendedFooterSize: nat := 40

  /** The 40 bytes of the struct as fwrite emits them, the integers little-endian. */
  function EncodeExtendedFooter(f: ExtendedFooter): (r: seq<byte>)
    ensures |r| == ExtendedFooterSize
  {
    LeBytes(f.payloadSize, 8) + (LeBytes(f.maxLaunches, 4) + (f.fileId
      + (LeBytes(f.securityFlags, 4) + f.magic)))
  }

  lemma FourBytesHoldU32()
    ensures Pow256(4) == TwoTo32
  {
  }

  /** The struct read back field by field from 40 bytes. */
  function DecodeExtendedFooter(bs: seq<byte>): (f: ExtendedFooter)
    requires |bs| == ExtendedFooterSize
    ensures f.magic == bs[32..]
  {
    EightBytesHoldU64();
    FourBytesHoldU32();
    var afterSize := bs[8..];
    var afterLimit := afterSize[4..];
    var afterId := afterLimit[16..];
    assert afterId[4..] == bs[32..];
    ExtendedFooter(LeValue(bs[..8]), LeValue(afterSize[..4]), afterLimit[..16],
                   LeValue(afterId[..4]), afterId[4..])
  }

  /** Every field survives encoding and decoding. */
  lemma ExtendedFooterRoundTrip(f: ExtendedFooter)
    ensures DecodeExtendedFooter(EncodeExtendedFooter(f)) == f
  {
    EightBytesHoldU64();
    FourBytesHoldU32();
    LeValueOfLeBytes(f.payloadSize, 8);
    LeValueOfLeBytes(f.maxLaunches, 4);
    LeValueOfLeBytes(f.securityFlags, 4);
  }

  /** Every 40-byte block is the encoding of the footer decoded from it. */
  lemma ExtendedFooterBytesRoundTrip(bs: seq<byte>)
    requires |bs| == ExtendedFooterSize
    ensures EncodeExtendedFooter(DecodeExtendedFooter(bs)) == bs
  {
    var f := DecodeExtendedFooter(bs);
    var afterSize := bs[8..];
    var afterLimit := afterSize[4..];
    var afterId := afterLimit[16..];
    LeBytesOfLeValue(bs[..8]);
    LeBytesOfLeValue(afterSize[..4]);
    LeBytesOfLeValue(afterId[..4]);
    SplitAt(afterId, 4);
    SplitAt(afterLimit, 16);
    SplitAt(afterSize, 4);
    SplitAt(bs, 8);
  }

  lemma SplitAt(s: seq<byte>, k: nat)
    requires k <= |s|
    ensures s == s[..k] + s[k..]
  {
  }

  // ---------------------------------------------------------------- the container

  /**
   * What build_protected_exe writes: stub, ciphered payload, then the extended footer for it, the
   * size stored as (uint64_t)dwg_size.
   */
  function GuiContainerBytes(stub: seq<byte>, payload: seq<byte>, maxLaunches: U32, fileId: Bytes16,
                             flags: U32): seq<byte>
  {
    stub + Xored(payload)
      + EncodeExtendedFooter(ExtendedFooter(|payload| % TwoTo64, maxLaunches, fileId, flags, MagicMarker))
  }

  /**
   * The container holds the stub, then the enciphered payload, then 40 bytes that decode to a
   * footer recording the payload's size, the limit, the identifier, the flags and the magic.
   */
  lemma GuiContainerLayout(stub: seq<byte>, payload: seq<byte>, maxLaunches: U32, fileId: Bytes16,
                           flags: U32)
    requires |payload| < TwoTo64
    ensures var r := GuiContainerBytes(stub, payload, maxLaunches, fileId, flags);
      && |r| == |stub| + |payload| + ExtendedFooterSize
      && r[..|stub|] == stub
      && r[|stub|..|stub| + |payload|] == Xored(payload)
      && DecodeExtendedFooter(r[|r| - ExtendedFooterSize..])
         == ExtendedFooter(|payload|, maxLaunches, fileId, flags, MagicMarker)
  {
    assert |payload| % TwoTo64 == |payload|;
    var f := ExtendedFooter(|payload|, maxLaunches, fileId, flags, MagicMarker);
    var r := GuiContainerBytes(stub, payload, maxLaunches, fileId, flags);
    var x := Xored(payload);
    var e := EncodeExtendedFooter(f);
    assert r == stub + (x + e);
    assert r[..|stub|] == stub;
    assert r[|stub|..] == x + e;
    assert r[|stub|..|stub| + |payload|] == (x + e)[..|x|];
    assert r[|r| - ExtendedFooterSize..] == e;
    ExtendedFooterRoundTrip(f);
  }

  /**
   * The three fwrite calls, whose results build_protected_exe ignores. A write that comes up short
   * fills the device, so what the file holds is still the longest prefix of the container that fit.
   */
  method WriteUnchecked(vol: Volume, path: string, stub: seq<byte>, payload: seq<byte>, footer: seq<byte>)
    requires path in vol.files && vol.files[path] == []
    modifies vol
    ensures vol.files == old(vol.files)[path := Accepted(stub + payload + footer, old(vol.free))]
  {
    ghost var budget := vol.free;
    var n := vol.Append(path, stub);
    assert vol.files[path] == Accepted(stub, budget);
    AcceptedAppend(stub, payload, budget);
    n := vol.Append(path, payload);
    AcceptedAppend(stub + payload, footer, budget);
    n := vol.Append(path, footer);
  }

  /**
   * The file work of build_protected_exe once the paths are known: it fails, changing nothing,
   * when stub.exe does not exist or cannot be read, when the design file cannot be read or when
   * the output cannot be created; otherwise it reports success whatever the writes achieved.
   */
  method WriteProtectedExe(vol: Volume, stubPath: string, dwgPath: string, outputPath: string,
                           maxLaunches: U32, fileId: Bytes16, flags: U32)
    returns (ok: bool)
    modifies vol
    ensures var stubIn := old(Builder.ReadFile(vol, stubPath));
      var dwgIn := old(Builder.ReadFile(vol, dwgPath));
      && (ok <==> stubIn.Some? && dwgIn.Some? && outputPath !in vol.locked)
      && (!ok ==> vol.files == old(vol.files))
      && (ok ==> vol.files == old(vol.files)[outputPath :=
            Accepted(GuiContainerBytes(stubIn.value, dwgIn.value, maxLaunches, fileId, flags), old(vol.free))])
  {
    ok := false;
    if stubPath !in vol.files {
      return;
    }
    var stubData := Builder.ReadFile(vol, stubPath);
    if stubData.None? {
      return;
    }
    var dwgData := Builder.ReadFile(vol, dwgPath);
    if dwgData.None? {
      return;
    }

    var dwg := dwgData.value;
    var buffer := NewBuffer(dwg);
    XorCrypt(buffer);
    var footer := ExtendedFooter(|dwg| % TwoTo64, maxLaunches, fileId, flags, MagicMarker);
    var encoded := EncodeExtendedFooter(footer);
    assert stubData.value + buffer[..] + encoded
        == GuiContainerBytes(stubData.value, dwg, maxLaunches, fileId, flags);

    var created := vol.Create(outputPath);
    if !created {
      return;
    }
    WriteUnchecked(vol, outputPath, stubData.value, buffer[..], encoded);
    ok := true;
  }

  /** The output path: swprintf of "%ls%ls%ls.exe" into MAX_PATH characters, keeping what fits. */
  function OutputPath(dwgPath: string, suffix: string): string
  {
    BoundedCopy(DirThroughLastSeparator(dwgPath, Builder.MaxPath) + Builder.GetBasename(dwgPath, Builder.MaxPath)
                + suffix + ".exe", Builder.MaxPath)
  }

  /** The output path as build_protected_exe assembles it from get_dir and get_basename. */
  method MakeOutputPath(dwgPath: string, suffix: string) returns (outputPath: string)
    ensures outputPath == OutputPath(dwgPath, suffix)
  {
    var outputDir := GetDir(dwgPath, Builder.MaxPath);
    var basename := GetBasename(dwgPath, Builder.MaxPath);
    outputPath := BoundedCopy(outputDir + basename + suffix + ".exe", Builder.MaxPath);
  }

  /** A uint32_t bit set as the number it stores. */
  function FlagsWord(flags: bv32): U32
  {
    flags as int
  }

  /** (uint32_t)max_launches: the int limit reduced modulo 2^32. */
  function LimitField(limit: int): (r: U32)
    ensures 0 <= limit < TwoTo32 ==> r == limit
    ensures limit < 0 && limit >= -TwoTo32 ==> r == limit + TwoTo32
  {
    limit % TwoTo32
  }

  /**
   * build_protected_exe: computes the output path next to the design file, then does the file
   * work; stubPath is what PathCombineW made of the builder's directory and "stub.exe".
   */
  method BuildProtectedExe(vol: Volume, stubPath: string, dwgPath: string, suffix: string,
                           maxLaunches: int, flags: bv32, fileId: Bytes16)
    returns (ok: bool, outputPath: string)
    modifies vol
    ensures outputPath == OutputPath(dwgPath, suffix)
    ensures var stubIn := old(Builder.ReadFile(vol, stubPath));
      var dwgIn := old(Builder.ReadFile(vol, dwgPath));
      && (ok <==> stubIn.Some? && dwgIn.Some? && outputPath !in vol.locked)
      && (!ok ==> vol.files == old(vol.files))
      && (ok ==> vol.files == old(vol.files)[outputPath :=
            Accepted(GuiContainerBytes(stubIn.value, dwgIn.value, LimitField(maxLaunches), fileId, FlagsWord(flags)),
                     old(vol.free))])
  {
    outputPath := MakeOutputPath(dwgPath, suffix);
    ok := WriteProtectedExe(vol, stubPath, dwgPath, outputPath, LimitField(maxLaunches), fileId, FlagsWord(flags));
  }

  // ---------------------------------------------------------------- the build button

  /** The suffix used when the suffix box is empty. */
  const GuiDefaultSuffix: string := "_secure"
  /** The buffers GetWindowTextW fills: 64 characters for the suffix, 16 for the limit. */
  const SuffixBufferLen: nat := 64
  const LimitBufferLen: nat := 16
  /** The limit used when the limit box is empty. */
  const DefaultLimit: int := 5

  /** The suffix the build uses: the box's text as far as the buffer holds it, or "_secure". */
  function SuffixSetting(text: string): (suffix: string)
    ensures 0 < |suffix| < SuffixBufferLen
    ensures text == [] ==> suffix == GuiDefaultSuffix
    ensures text != [] ==> suffix <= text && |suffix| == Min(|text|, SuffixBufferLen - 1)
  {
    var copy := BoundedCopy(text, SuffixBufferLen);
    if |copy| == 0 then GuiDefaultSuffix else copy
  }

  /**
   * The limit the build uses: 5 when the box is empty, otherwise _wtoi of the first 15 characters.
   * Typed digits give their value (capped at INT_MAX); text that does not start with a number
   * gives 0, which the footer records as "unlimited".
   */
  function LimitSetting(text: string): (limit: int)
    ensures IntMin <= limit <= IntMax
    ensures text == [] ==> limit == DefaultLimit
    ensures 0 < |text| < LimitBufferLen && (forall i :: 0 <= i < |text| ==> IsDigit(text[i])) ==>
      limit == Min(DecimalValue(text), IntMax)
    ensures text != [] && !MayStartNumber(text[0]) ==> limit == 0
  {
    var copy := BoundedCopy(text, LimitBufferLen);
    if |copy| > 0 then
      WtoiOfLimitText(text);
      Wtoi(copy)
    else
      DefaultLimit
  }

  /** What _wtoi makes of the limit box's buffer, for typed digits and for text that is no number. */
  lemma WtoiOfLimitText(text: string)
    requires text != []
    ensures |text| < LimitBufferLen && (forall i :: 0 <= i < |text| ==> IsDigit(text[i])) ==>
      Wtoi(BoundedCopy(text, LimitBufferLen)) == Min(DecimalValue(text), IntMax)
    ensures !MayStartNumber(text[0]) ==> Wtoi(BoundedCopy(text, LimitBufferLen)) == 0
  {
    var copy := BoundedCopy(text, LimitBufferLen);
    assert copy[0] == text[0];
    if |text| < LimitBufferLen {
      assert copy == text;
      if forall i :: 0 <= i < |text| ==> IsDigit(text[i]) {
        WtoiOfDigits(text);
      }
    }
    if !MayStartNumber(text[0]) {
      WtoiOfNonNumeric(copy);
    }
  }

  /** Digits typed in the limit box become the launch limit stored in the footer; "0" means unlimited. */
  lemma LimitOfDigits(text: string)
    requires 0 < |text| < LimitBufferLen
    requires forall i :: 0 <= i < |text| ==> IsDigit(text[i])
    ensures LimitField(LimitSetting(text)) == Min(DecimalValue(text), IntMax)
  {
  }

  /** A limit box whose text does not start with a number stores 0 in the footer: no limit at all. */
  lemma NonNumericLimitIsUnlimited(text: string)
    requires text != [] && !MayStartNumber(text[0])
    ensures LimitField(LimitSetting(text)) == 0
  {
  }

  /** For example, typing "abc" in the limit box builds a container without a launch limit. */
  lemma LetterLimitExample()
    ensures LimitField(LimitSetting("abc")) == 0
  {
    NonNumericLimitIsUnlimited("abc");
  }

  /** Which of the three policy boxes are checked. */
  datatype FlagChoice = FlagChoice(meltdown: bool, showCountdown: bool, selfDestruct: bool)

  /** The values of FLAG_MELTDOWN, FLAG_SHOW_COUNTDOWN and FLAG_SELF_DESTRUCT. */
  datatype FlagValues = FlagValues(meltdown: bv32, showCountdown: bv32, selfDestruct: bv32)

  /** One `if (checked) flags |= value;` step. */
  function OrIfChecked(flags: bv32, checked: bool, value: bv32): bv32
  {
    if checked then flags | value else flags
  }

  /** The flags word: starting from 0, the bits of every checked box ORed in, in dialog order. */
  function SecurityFlags(choice: FlagChoice, values: FlagValues): bv32
  {
    OrIfChecked(OrIfChecked(OrIfChecked(0, choice.meltdown, values.meltdown),
                            choice.showCountdown, values.showCountdown),
                choice.selfDestruct, values.selfDestruct)
  }

  /** A checked meltdown box puts all of FLAG_MELTDOWN's bits in the word. */
  lemma SecurityFlagsHoldMeltdown(choice: FlagChoice, values: FlagValues)
    requires choice.meltdown
    ensures SecurityFlags(choice, values) & values.meltdown == values.meltdown
  {
  }

  /** A checked countdown box puts all of FLAG_SHOW_COUNTDOWN's bits in the word. */
  lemma SecurityFlagsHoldCountdown(choice: FlagChoice, values: FlagValues)
    requires choice.showCountdown
    ensures SecurityFlags(choice, values) & values.showCountdown == values.showCountdown
  {
  }

  /** A checked self-destruct box puts all of FLAG_SELF_DESTRUCT's bits in the word. */
  lemma SecurityFlagsHoldSelfDestruct(choice: FlagChoice, values: FlagValues)
    requires choice.selfDestruct
    ensures SecurityFlags(choice, values) & values.selfDestruct == values.selfDestruct
  {
  }

  /** The word holds no bit outside the flags of the checked boxes. */
  lemma SecurityFlagsOnlyCheckedBits(choice: FlagChoice, values: FlagValues)
    ensures var checkedBits := (if choice.meltdown then values.meltdown else 0)
                               | (if choice.showCountdown then values.showCountdown else 0)
                               | (if choice.selfDestruct then values.selfDestruct else 0);
            SecurityFlags(choice, values) & !checkedBits == 0
  {
  }

  /** With no box checked the word stays 0. */
  lemma SecurityFlagsNoneChecked(choice: FlagChoice, values: FlagValues)
    requires !choice.meltdown && !choice.showCountdown && !choice.selfDestruct
    ensures SecurityFlags(choice, values) == 0
  {
  }

  /**
   * The ID_BUILD_BTN handler: nothing happens until a file is selected; otherwise the build runs
   * with the suffix, limit and flags read from the window, and its success is reported.
   */
  method OnBuildClicked(vol: Volume, selected: string, stubPath: string, suffixText: string,
                        limitText: string, choice: FlagChoice, values: FlagValues, fileId: Bytes16)
    returns (built: Option<bool>)
    modifies vol
    ensures selected == [] ==> built.None? && vol.files == old(vol.files)
    ensures selected != [] ==>
      var stubIn := old(Builder.ReadFile(vol, stubPath));
      var dwgIn := old(Builder.ReadFile(vol, selected));
      var outputPath := OutputPath(selected, SuffixSetting(suffixText));
      && built.Some?
      && (built.value <==> stubIn.Some? && dwgIn.Some? && outputPath !in vol.locked)
      && (!built.value ==> vol.files == old(vol.files))
      && (built.value ==> vol.files == old(vol.files)[outputPath :=
            Accepted(GuiContainerBytes(stubIn.value, dwgIn.value, LimitField(LimitSetting(limitText)), fileId,
                                       FlagsWord(SecurityFlags(choice, values))),
                     old(vol.free))])
  {
    if selected == [] {
      return None;
    }
    var suffix := SuffixSetting(suffixText);
    var limit := LimitSetting(limitText);
    var flags := SecurityFlags(choice, values);
    var ok, _ := BuildProtectedExe(vol, stubPath, selected, suffix, limit, flags, fileId);
    built := Some(ok);
  }
}
