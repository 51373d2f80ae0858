# CAD Locker, modelled in Dafny

CAD Locker protects a CAD drawing (a `.dwg` file) by wrapping it in a self-contained Windows
executable. There are two builders:

- `builder.c` is a console program.
- `builder_gui.c` is a drag-and-drop window.

Both read `stub.exe` from their own directory and encipher the drawing with a repeating-key XOR.
They then write a container next to the drawing: the stub, the enciphered drawing, then a
footer. The footer records the drawing's size and ends with the magic `CADLOCK\0`.

When the container runs, the stub:

1. reads the footer at the end of its own file;
2. checks a launch counter kept in the registry (`HKCU\Software\MyCADLock\LaunchCount`) against
   a limit of five launches;
3. counts the launch;
4. deciphers the drawing into a temporary `.dwg` file;
5. opens that file in the viewer;
6. afterwards, overwrites the file with zeros and deletes it.

The model is split into these modules:

- `CadLocker` (`cad_locker.dfy`): the shared constants, the cipher and the 16-byte footer codec.
- `Builder` (`builder.dfy`): the console builder.
- `BuilderGui` (`builder_gui.dfy`): the window builder, with its own path helpers and its
  extended 40-byte footer.
- `Stub` (`stub.dfy`): the launcher.
- `Container` (`container.dfy`): shows that what the builder writes is what the stub gets back.
- `CLib` (`clib.dfy`): the C runtime behaviour the code relies on (`strrchr`, `strncpy` into a
  bounded buffer, `_wtoi`, the MSVC integer conversions).
- `Platform` (`platform.dfy`): the machine state, namely a `Volume` class (files, locked paths,
  free space) and a `Registry` class (the one counter value).

Failures of the environment are part of that state, so each operation is deterministic:

- a locked path cannot be created or deleted;
- writes stop when the device is full. The free space is a budget that only writes use up:
  truncating a file with "wb" or deleting one does not give its bytes back;
- creating or setting the registry value can fail.

The central results are:

- `Container.UnpackOfContainer`: the stub recovers exactly the drawing the builder packed, for
  every drawing that, with its 16-byte footer, fits in a 32-bit long.
- `Stub.FreshRegistryGrantsMaxLaunches`: on a fresh registry that accepts every write, five launches are granted,
  announcing 4, 3, 2, 1 and 0 remaining views, and every later launch is refused.
- `Stub.RunStub`: a refused launch changes nothing the model tracks and then asks for the
  container's own deletion. A successful one shows the viewer the deciphered drawing and removes
  both temporary files.

## Model

| member | source | states |
|---|---|---|
| CadLocker.XorKeyHasKeyLength | cad_locker.h:17-18 | The key has exactly XOR_KEY_LEN = 22 bytes, so `key[i % XOR_KEY_LEN]` always lies inside it |
| CadLocker.MagicSpellsCadlock | cad_locker.h:21-22 | The magic is 8 bytes: "CADLOCK" in ASCII followed by one NUL |
| CadLocker.XorCrypt | cad_locker.h:46-51 | After the call, byte i of the buffer is the old byte i XOR key byte i mod 22, for every i; the length is unchanged and only the buffer is written |
| CadLocker.Xored | cad_locker.h:46-51 | The cipher over a whole buffer keeps its length; CadLocker.XorCrypt computes it in place and CadLocker.XoredIsInvolution shows it is its own inverse |
| CadLocker.XoredIsInvolution | cad_locker.h:45-51 | Enciphering twice gives back the original bytes (the cipher decrypts what it encrypts) |
| CadLocker.LeValueOfLeBytes | cad_locker.h:38 | Reading back the n little-endian bytes written for v gives v, for every v below 256^n |
| CadLocker.LeBytesOfLeValue | cad_locker.h:38 | Writing out the value that n bytes represent gives back the same n bytes |
| CadLocker.EncodeFooter | cad_locker.h:36-41 | The packed footer is 16 bytes: the 8 little-endian bytes of payload_size, then the 8 magic bytes |
| CadLocker.DecodeFooter | cad_locker.h:36-41 | The magic field of the footer read from 16 bytes is their last 8 bytes |
| CadLocker.FooterRoundTrip | cad_locker.h:36-41 | Decoding an encoded footer gives back the same payload size and magic, for every 64-bit size |
| CadLocker.FooterBytesRoundTrip | cad_locker.h:36-41 | Every 16-byte block is the encoding of the footer decoded from it |
| CLib.LastIndex | builder.c:118 | strrchr: the position found holds the character and none follows it; none found means the character does not occur |
| CLib.FirstIndex | builder.c:294 | strchr: the position found holds the character and none precedes it; none found means it does not occur |
| CLib.AfterLast | builder.c:117-121 | The text after the last occurrence of a character (or the whole string without one) is a suffix of the string, does not contain the character, and is preceded by it when shorter |
| CLib.TruncateAtLast | builder.c:128-131 | Writing NUL at the last occurrence keeps the prefix before it, which the character no longer follows; without an occurrence the string is unchanged |
| CLib.BoundedCopy | builder.c:124-125 | strncpy of max_len - 1 characters then a NUL at the end keeps a prefix of min(length, max_len - 1) characters |
| CLib.EqualIgnoringCase | builder_gui.c:313 | _wcsicmp(a, b) == 0 as the predicate: equal lengths and equal characters once A-Z are lowered; BuilderGui.IsDwgNameMeansDwgEnding states what it accepts |
| CLib.FinalComponent | builder_gui.c:127-133 | The final component ends the path, holds no separator of either kind, and is the whole path or follows a separator |
| CLib.FinalComponentUnique | builder_gui.c:127-133 | Only one suffix of a path is separator-free and is either the whole path or preceded by a separator |
| CLib.Ftell | builder.c:52-56 | ftell on a 32-bit long reports the file's length when it fits and -1 otherwise |
| CLib.SignedFromDword | stub.c:64 | The (int) cast of a DWORD keeps values below 2^31 and makes larger ones negative, congruent modulo 2^32 |
| CLib.WrapInt32 | stub.c:367 | 32-bit int arithmetic: the result lies in the int range, agrees with the exact value modulo 2^32 and equals it when it fits |
| CLib.SkipSpaces | builder_gui.c:479 | _wtoi's leading white-space skip drops exactly the leading run of white space: what it skips is all white space and what remains does not start with it |
| CLib.Wtoi | builder_gui.c:479 | _wtoi always yields a value in the int range |
| CLib.WtoiOfNonNumeric | builder_gui.c:479 | Text that starts with neither white space, a sign nor a digit reads as 0 |
| CLib.WtoiSkipsLeadingSpace | builder_gui.c:479 | A leading white-space character does not change what _wtoi reads |
| CLib.WtoiOfNegativeDigits | builder_gui.c:479 | A minus sign followed by digits reads as minus their decimal value, capped at INT_MIN |
| CLib.WtoiOfDigits | builder_gui.c:479 | A string of decimal digits reads as its decimal value, capped at INT_MAX |
| Platform.NewBuffer | builder.c:62-69 | malloc of the data's size followed by a complete fread gives a fresh buffer holding exactly those bytes |
| Platform.Volume.Create | builder.c:211 | fopen "wb" succeeds exactly on an unlocked path and leaves the file empty; nothing else changes |
| Platform.Volume.Append | builder.c:218 | fwrite appends the first min(count, free space) bytes and reports that count |
| Platform.Volume.Overwrite | stub.c:131 | A write in a file opened "r+b" replaces bytes in place and needs no new space |
| Platform.Volume.Delete | stub.c:139 | DeleteFileA succeeds exactly on an existing unlocked file and removes only it |
| Platform.Registry.Query | stub.c:51-62 | The stored value is only read through an existing key |
| Platform.Registry.CreateKey | stub.c:76-90 | RegCreateKeyExA fails exactly when creation is refused, and otherwise leaves the key existing and the value unchanged |
| Platform.Registry.SetValue | stub.c:100-105 | RegSetValueExA stores the DWORD unless the write is refused |
| Platform.AcceptedAppend | builder_gui.c:256-258 | A write after a stream gains only the part that fits in the room the stream left; after a short write, later writes add nothing |
| Builder.ReadFile | builder.c:41-78 | read_file succeeds exactly on an existing file whose size is positive and fits a long, and then yields the whole file |
| Builder.GetBasename | builder.c:113-132 | The basename always fits the buffer, NUL included |
| Builder.GetBasenameOfFinalComponent | builder.c:113-132 | get_basename is the final component (after either separator), cut to the buffer and then at its last dot; it holds no separator |
| Builder.BackslashThenSlashIsFinalComponent | builder.c:117-121 | Cutting after the last backslash and then after the last slash leaves the final component, whichever separator came last |
| Builder.GetDir | builder.c:135-148 | get_dir keeps the copied path through its last backslash; if there is none, through its last slash; otherwise it yields ".\" |
| Builder.StubPath | builder.c:170-171 | The stub's path; Builder.StubPathInBuilderDir states that it is the builder's directory plus "stub.exe", cut to MAX_PATH |
| Builder.StubPathInBuilderDir | builder.c:170-171 | The stub is looked for as "stub.exe" in the builder's directory, cut to MAX_PATH |
| Builder.OutputPath | builder.c:173-175 | The output path; Builder.OutputPathNextToDesign states that it is the drawing's directory, its basename, the suffix and ".exe", cut to MAX_PATH |
| Builder.OutputPathNextToDesign | builder.c:173-175 | The output is dir + basename + suffix + ".exe" next to the drawing, cut to MAX_PATH - 1 characters |
| Builder.ContainerBytes | builder.c:202-233 | The bytes the console builder writes; Builder.ContainerLayout states their layout and Container.UnpackOfContainer that the stub recovers the drawing from them |
| Builder.ContainerLayout | builder.c:202-233 | The container is the stub, then the drawing enciphered byte for byte, then a 16-byte footer for the drawing's size; total size stub + drawing + 16 |
| Builder.WriteContainer | builder.c:217-233 | The three checked writes leave the longest prefix of the container that fits and succeed exactly when all of it fits |
| Builder.WriteProtectedExe | builder.c:183-246 | A failed read or create returns 1 and changes nothing; otherwise the output holds what fit of the container, with result 0 exactly when all of it fit |
| Builder.BuiltSuccessIsWhole | builder.c:183-246 | A build that returns 0 read both the stub and the drawing, and its output holds the whole container, byte for byte; no other file changes |
| Builder.BuildProtectedExe | builder.c:152-254 | As Builder.WriteProtectedExe, with the stub next to the builder and the output path named after the drawing |
| Builder.TrimLineEnd | builder.c:286-289 | The line loses exactly its trailing run of '\n' and '\r' characters |
| Builder.StripQuotes | builder.c:292-296 | A leading double quote is dropped and the text is cut at the next double quote; other input is unchanged |
| Builder.InputPath | builder.c:273-297 | The drawing path is argv[1] cut to MAX_PATH - 1, or the prompt line trimmed and unquoted, or nothing when the prompt cannot be read |
| Builder.SuffixFromInput | builder.c:309-322 | The suffix is the trimmed line, or "_protected" when the read fails or the trimmed line is empty; it is never empty |
| Builder.BuildWithSuffix | builder.c:307-325 | The suffix comes from the second line (or "_protected"), the output is written at the path named after the drawing and that suffix, and the result is that of build_protected_exe |
| Builder.RunBuilder | builder.c:258-331 | The drawing path comes from argv[1] or the prompt. A missing drawing exits 1 with nothing written. Otherwise the output path is the one derived from the drawing and the suffix, and the files are what build_protected_exe leaves there, so exit 0 means the whole container was written (Builder.BuiltSuccessIsWhole) |
| BuilderGui.FindLastSeparator | builder_gui.c:129-131 | The scanning loop ends remembering the last backslash or slash |
| BuilderGui.GetFilename | builder_gui.c:127-133 | get_filename returns the final component of the path |
| BuilderGui.GetBasename | builder_gui.c:136-143 | The window builder's basename is the final component cut to the buffer and at its last dot, the same as the console builder's |
| BuilderGui.DirThroughLastSeparator | builder_gui.c:146-163 | The directory is the copied path through its last separator of either kind, or ".\" |
| BuilderGui.GetDir | builder_gui.c:146-163 | get_dir's scan and cut yield that directory |
| BuilderGui.DirRulesAgreeUnlessSlashAfterBackslash | builder_gui.c:150-154 | The two builders pick the same directory exactly when no slash follows the last backslash |
| BuilderGui.MixedSeparatorsExample | builder_gui.c:146-163 | For "C:\cad/part.dwg" the console builder picks "C:\" and the window builder "C:\cad/" |
| BuilderGui.IsDwgName | builder_gui.c:312-313 | The drop test on the text from the last dot; BuilderGui.IsDwgNameMeansDwgEnding states that it accepts exactly names ending in ".dwg" in any letter case |
| BuilderGui.IsDwgNameMeansDwgEnding | builder_gui.c:312-313 | A dropped file is accepted exactly when its last four characters are ".dwg" in any letter case |
| BuilderGui.AfterDrop | builder_gui.c:312-317 | A drop whose last four characters are ".dwg" in any letter case becomes the selected file; any other drop, including one shorter than four characters, leaves the selection unchanged |
| BuilderGui.EncodeExtendedFooter | builder_gui.c:232-242 | The extended footer is 40 bytes |
| BuilderGui.DecodeExtendedFooter | builder_gui.c:232-242 | The magic field read from 40 bytes is their last 8 bytes |
| BuilderGui.ExtendedFooterRoundTrip | builder_gui.c:232-242 | Decoding an encoded extended footer gives back every field |
| BuilderGui.ExtendedFooterBytesRoundTrip | builder_gui.c:232-242 | Every 40-byte block is the encoding of the footer decoded from it |
| BuilderGui.GuiContainerBytes | builder_gui.c:229-258 | The bytes the window builder writes; BuilderGui.GuiContainerLayout states their layout and the footer fields they decode to |
| BuilderGui.GuiContainerLayout | builder_gui.c:229-258 | The window builder's container is the stub, the enciphered drawing, and 40 bytes that decode to its size, limit, identifier, flags and magic |
| BuilderGui.WriteUnchecked | builder_gui.c:256-258 | The three unchecked writes leave the longest prefix of the container that fits |
| BuilderGui.WriteProtectedExe | builder_gui.c:195-274 | The build reports success exactly when stub and drawing are readable and the output can be created, whether or not the writes completed |
| BuilderGui.OutputPath | builder_gui.c:187-189 | The window builder's output path; BuilderGui.MakeOutputPath computes it and BuilderGui.GetBasename and BuilderGui.GetDir characterise its parts |
| BuilderGui.MakeOutputPath | builder_gui.c:187-189 | The output path is dir + basename + suffix + ".exe" cut to MAX_PATH |
| BuilderGui.LimitField | builder_gui.c:233 | (uint32_t) of the limit keeps values in range and adds 2^32 to negative ones |
| BuilderGui.BuildProtectedExe | builder_gui.c:167-282 | As BuilderGui.WriteProtectedExe, with the output path made from the drawing's path and the limit and flags stored as 32-bit words |
| BuilderGui.SuffixSetting | builder_gui.c:472-475 | An empty suffix box gives "_secure"; otherwise the suffix is the box's text, as much of it as fits in 63 characters |
| BuilderGui.LimitSetting | builder_gui.c:468-480 | The limit is an int; an empty box gives 5; up to 15 typed digits give their decimal value capped at INT_MAX; text that cannot start a number gives 0 |
| BuilderGui.WtoiOfLimitText | builder_gui.c:477-479 | _wtoi of the box's first 15 characters: digits give their value capped at INT_MAX, and text that cannot start a number gives 0 |
| BuilderGui.LimitOfDigits | builder_gui.c:477-480 | Digits typed in the limit box become the limit word stored in the footer, capped at INT_MAX |
| BuilderGui.NonNumericLimitIsUnlimited | builder_gui.c:477-480 | Text in the limit box that cannot start a number stores a limit of 0, which means unlimited launches |
| BuilderGui.LetterLimitExample | builder_gui.c:477-480 | Typing "abc" in the limit box stores a limit of 0 |
| BuilderGui.SecurityFlags | builder_gui.c:470-490 | The flags word; the BuilderGui.SecurityFlagsHold lemmas and BuilderGui.SecurityFlagsOnlyCheckedBits state that it holds exactly the bits of the checked boxes' flags |
| BuilderGui.SecurityFlagsHoldMeltdown | builder_gui.c:482-484 | A checked meltdown box sets every bit of FLAG_MELTDOWN in the flags word |
| BuilderGui.SecurityFlagsHoldCountdown | builder_gui.c:485-487 | A checked countdown box sets every bit of FLAG_SHOW_COUNTDOWN |
| BuilderGui.SecurityFlagsHoldSelfDestruct | builder_gui.c:488-490 | A checked self-destruct box sets every bit of FLAG_SELF_DESTRUCT |
| BuilderGui.SecurityFlagsOnlyCheckedBits | builder_gui.c:470-490 | The flags word has no bit set outside the flags of the checked boxes |
| BuilderGui.SecurityFlagsNoneChecked | builder_gui.c:470 | With no box checked the flags word stays 0 |
| BuilderGui.OnBuildClicked | builder_gui.c:465-493 | Nothing happens without a selected file; otherwise the build runs with the suffix, limit and flags read from the window |
| Stub.ReadFooter | stub.c:143-160 | The footer is accepted exactly when the file has at least 16 bytes and its last 8 bytes are the magic |
| Stub.ReadFooterIsTail | stub.c:145-155 | An accepted footer is exactly the decoding of the file's last 16 bytes and carries the magic |
| Stub.PayloadOffset | stub.c:205 | The seek offset is a 32-bit long |
| Stub.PayloadOffsetPositiveJustAboveLongMax | stub.c:205 | When payload plus footer exceed LONG_MAX by 1 to 15 bytes, the offset wraps to 2^32 minus their size, a positive value |
| Stub.PayloadOffsetWithoutWrap | stub.c:205 | When payload plus footer fit in a long, the offset is minus their size |
| Stub.PayloadRead | stub.c:206-217 | A successful seek and read yields exactly payload_size bytes |
| Stub.PayloadReadInAddressableFile | stub.c:205-217 | In a file a long can address, the read succeeds exactly when payload and footer fit in the file, and yields bytes [L-16-size, L-16) |
| Stub.Unpack | stub.c:205-220 | A recovered drawing has a valid footer and exactly the size the footer records |
| Stub.WithDwgExtension | stub.c:183-190 | The plaintext's file name; Stub.WithDwgExtensionReplacesExtension states that the last extension becomes ".dwg" |
| Stub.WithDwgExtensionReplacesExtension | stub.c:183-190 | The temporary name's last extension is replaced by ".dwg", or ".dwg" is appended when it has no dot |
| Stub.StoredCount | stub.c:45-65 | A missing key or value counts as 0; a stored DWORD is read through the (int) cast |
| Stub.GetLaunchCount | stub.c:45-65 | Without the registry key the count is 0 |
| Stub.NextStored | stub.c:93-99 | The stored count is incremented with an absent value read as 0, wrapping at 2^32 |
| Stub.IncrementLaunchCount | stub.c:69-108 | -1 and no stored change when create or set fails; otherwise the incremented value is stored and returned as an int, and then reads back as the count |
| Stub.Remaining | stub.c:367 | The remaining count is limit - count - 1 in int arithmetic |
| Stub.Granted | stub.c:351 | A limit of 0 or less grants every launch; a positive limit grants exactly the counts below it |
| Stub.AfterRun | stub.c:349-362 | When every registry write succeeds: a missing value becomes 1; a stored count below the limit, or of 2^31 or more (read as negative), is incremented modulo 2^32; a count the check refuses is left as it was |
| Stub.Launches | stub.c:349-370 | When every registry write succeeds: one entry per run; a refused first launch means every run is refused, and once a launch is refused every later one is too |
| Stub.UnlimitedAlwaysGranted | stub.c:351 | A limit of 0 never refuses a launch |
| Stub.HugeStoredCountIsGranted | stub.c:349-351 | A stored count of 2^31 or more reads as negative and is granted |
| Stub.FreshRegistryGrantsMaxLaunches | stub.c:349-370 | From a fresh registry that accepts every write, launch i (i < 5) is granted announcing 4 - i views, and every later launch is refused |
| Stub.LaunchesFromCount | stub.c:349-370 | When every registry write succeeds, from a stored count k up to the limit, launch i is granted exactly when k + i is below the limit |
| Stub.ExtractPayload | stub.c:163-242 | The placeholder is removed. The deciphered payload ends up under the ".dwg" name only when the read, the create and the write all succeed; a short write deletes the file; any failure returns no path |
| Stub.OverwriteWithZeros | stub.c:124-133 | The zero pass leaves the file all zeros at the same length, or unchanged when ftell cannot report its size |
| Stub.WriteZeros | stub.c:130-131 | One chunk of at most 4096 zeros overwrites bytes [offset, offset + count) and nothing else |
| Stub.SecureDeleteFile | stub.c:113-140 | The file is deleted exactly when it exists and is not locked; no other file changes |
| Stub.RunStub | stub.c:314-390 | A missing exe, bad footer or refused launch exits 1 and changes no file or registry value. The container's deletion is requested exactly when the launch is refused. A granted launch counts itself and announces the remaining views. Exit 0 exactly when the extraction succeeds, and then the viewer got the deciphered payload and both temporary files are gone. Past a valid footer, the remaining views are the first entry of Stub.Launches and, when every registry write succeeds, the stored value is Stub.AfterRun of the old one |
| Container.ReadFooterOfContainer | stub.c:143-160 | The stub accepts the footer the console builder writes and reads back the drawing's size |
| Container.UnpackOfContainer | stub.c:205-220 | Unpacking a container the console builder produced gives back the original drawing, for every drawing of at most LONG_MAX - 16 bytes |
| Container.UnpackFailsJustBelowLongMax | stub.c:205-220 | A container holding a drawing of LONG_MAX - 14 to LONG_MAX bytes, which the console builder accepts, cannot be unpacked |

## Left out

- Memory allocation failures are not modelled. Neither are short reads on an I/O error (`read_file`, `read_file_binary`, `extract_payload`): a read either succeeds whole or fails for a modelled reason.
- The Win32 user interface is not modelled: window creation, message boxes, status text, the file-open dialog and `printf` output. The handlers keep only their logic.
- `DragQueryFileW`'s truncation of long dropped paths is not modelled.
- `launch_and_wait` is not modelled, because it is an external process boundary. The viewer is assumed to leave the temporary file as it found it, and the stub's exit code does not depend on the viewer.
- Stub.RunStub: `self_delete` (stub.c:273-310) is reported only as the `selfDelete` result. The batch file `cleanup.bat` it writes in the temporary directory and the `cmd` process that deletes the container after the stub exits are not modelled.
- Stub.RunStub: the promise that no plaintext remains assumes the viewer has released the temporary file when `launch_and_wait` returns. `launch_and_wait` does not wait when `ShellExecuteExA` gives no process handle (stub.c:263), and a delete of a file the viewer still holds fails (stub.c:384-386); the model treats the file as unlocked.
- Values from the system are taken as inputs:
  - `GetModuleFileName*`, `PathRemoveFileSpecW`, `PathCombineW` and `GetCurrentDirectoryW`. The window builder's stub path is an input, while the console builder's is computed from its module path.
  - `GetTempPathA` and `GetTempFileNameA` become `tempName`. The placeholder file it creates is modelled by `Volume.Create`.
  - `CoCreateGuid` and its `rand()` fallback become `fileId`.
  - The values of `FLAG_MELTDOWN`, `FLAG_SHOW_COUNTDOWN` and `FLAG_SELF_DESTRUCT` are not defined in `cad_locker.h`, so they are an input.
- The layout of the window builder's footer is not in `cad_locker.h`. The model assumes a packed 40-byte struct in the order payload_size, max_launches, file_id, security_flags, magic. The stub reads only the last 16 bytes, so it sees `file_id`'s tail and `security_flags` as a payload size; the model does not relate the stub to the window builder's output.
- The registry is modelled as a single value, with flags saying whether creating the key or setting the value fails.
- `GetFileAttributesA` and `GetFileAttributesW` are modelled as "the path names a file"; directories are not modelled.
- `write_file` in builder.c is not modelled, because nothing calls it.
- The floating-point size in KB in the window builder's message is not modelled.
- `size_t` is taken as 64 bits and `long` as 32 bits (Windows).
- Signed overflow is modelled as two's-complement wrap-around in `Stub.Remaining` and `Stub.PayloadOffset`. In C this overflow is undefined behaviour.
- Stub.PayloadRead: for executables longer than 2^31 - 1 bytes, only the definition (a seek relative to the end by the truncated offset) is given. No characterisation is proved.
- Stub.OverwriteWithZeros: the chunk sizes are not listed one by one. `Stub.WriteZeros` requires each chunk to be at most 4096 bytes, and the final state shows that the chunks cover the whole file.
- Stub.RunStub: after a granted launch whose extraction fails, the file effects are stated only through `Stub.ExtractPayload`, not in RunStub's own contract.
- Builder.InputPath: the prompt line is taken as `fgets` returned it, already limited to MAX_PATH - 1 characters. The suffix line is likewise taken as read into its 64-character buffer.
- Platform.Volume.Append: each `fwrite` is taken to reach the device before it returns, so the count it reports is final. With stdio buffering, a write that fails when flushed shows up only at the final `fclose` (builder.c:235, stub.c:238, builder_gui.c:260), whose result the code ignores. The same holds for Builder.WriteContainer, Builder.WriteProtectedExe, Builder.BuildProtectedExe, BuilderGui.WriteUnchecked and Stub.ExtractPayload: a build or extraction the model reports as complete could still be cut short at that `fclose`.
- Builder.ContainerBytes: the footer's size field is `(uint64_t)dwg_size`, written as the size modulo 2^64; the layout and round-trip lemmas assume a drawing smaller than 2^64 bytes.
- Stub.Launches: it and the lemmas about it assume that every registry write succeeds. When `RegCreateKeyExA` or `RegSetValueExA` is refused (stub.c:76-105), `increment_launch_count` returns -1 and the stub carries on (stub.c:360-362). The count then never moves, so every launch is granted and announces the same number of views. `Stub.RunStub` states this case: a failed create or set leaves the stored value unchanged.
- CLib.Wtoi: white space and digits are the ASCII ones. The wide-character runtime also skips other Unicode white space (such as U+3000) and reads other decimal digits (such as the fullwidth digits U+FF10-U+FF19), which the model reads as a non-number, giving 0. Overflow saturates at INT_MIN / INT_MAX as in the Universal C Runtime of the MSVC build (builder_gui.c:10-11); the older `msvcrt.dll` a MinGW build links (builder_gui.c:7-8) may wrap instead.
- Platform.Volume: paths are compared exactly. Windows compares file names without regard to letter case and accepts '/' for '\', so two paths the model keeps apart can name the same file there (for example an output path that differs from `stub.exe`'s path only in case).
- Container.UnpackOfContainer: the round trip is proved for drawings of at most LONG_MAX - 16 bytes. The builders accept drawings up to LONG_MAX bytes (builder.c:53-56). For LONG_MAX - 14 to LONG_MAX bytes the stub's offset `-(long)(payload_size + 16)` (stub.c:205) wraps to a positive value and the drawing cannot be recovered, as Container.UnpackFailsJustBelowLongMax shows. The single size LONG_MAX - 15, where the offset wraps to exactly LONG_MIN, is covered by neither lemma.
