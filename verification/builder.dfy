/**
 * The command-line builder (builder.c): it reads stub.exe from its own directory and the
 * design file, enciphers the design file, and writes stub, ciphered payload and footer, in
 * that order, to "<dir><basename><suffix>.exe" next to the design file.
 */
module Builder {
  import opened Wrappers
  import opened CLib
  import opened CadLocker
  import opened Platform

  const MaxPath: nat := 260
  const StubFileName: string := "stub.exe"
  const DefaultSuffix: string := "_protected"

  // ---------------------------------------------------------------- files

  /** read_file: the whole file, or None when fopen fails or ftell does not report a positive size. */
  function ReadFile(vol: Volume, path: string): (r: Option<seq<byte>>)
    reads vol
    ensures r.Some? <==> path in vol.files && 0 < |vol.files[path]| <= LongMax
    ensures r.Some? ==> r.value == vol.files[path]
  {
    if path !in vol.files then None
    else if Ftell(|vol.files[path]|) <= 0 then None
    else Some(vol.files[path])
  }

  // ---------------------------------------------------------------- paths

  /**
   * get_basename: the text after the last backslash, then after the last slash of what remains,
   * copied into a buffer of maxLen characters and cut at its last dot. The two-step search finds
   * the final component of the path whichever separator ends its directory part.
   */
  function GetBasename(path: string, maxLen: nat): (name: string)
    requires maxLen >= 1
    ensures |name| < maxLen
  {
    var filename := AfterLast(AfterLast(path, '\\'), '/');
    TruncateAtLast(BoundedCopy(filename, maxLen), '.')
  }

  /**
   * The basename is the final component of the path, whichever separator precedes it, cut to
   * the buffer and then at its last dot; it never holds a separator.
   */
  lemma GetBasenameOfFinalComponent(path: string, maxLen: nat)
    requires maxLen >= 1
    ensures GetBasename(path, maxLen) == TruncateAtLast(BoundedCopy(FinalComponent(path), maxLen), '.')
    ensures NoSeparator(GetBasename(path, maxLen))
  {
    BackslashThenSlashIsFinalComponent(path);
    var copy := BoundedCopy(FinalComponent(path), maxLen);
    PrefixKeepsNoSeparator(FinalComponent(path), copy);
    PrefixKeepsNoSeparator(copy, TruncateAtLast(copy, '.'));
  }

  lemma PrefixKeepsNoSeparator(s: string, p: string)
    requires NoSeparator(s) && p <= s
    ensures NoSeparator(p)
  {
    forall i | 0 <= i < |p|
      ensures !IsSeparator(p[i])
    {
      assert p[i] == s[i];
    }
  }

  /** Cutting after the last backslash and then after the last slash leaves the final component. */
  lemma BackslashThenSlashIsFinalComponent(path: string)
    ensures AfterLast(AfterLast(path, '\\'), '/') == FinalComponent(path)
  {
    var a := AfterLast(path, '\\');
    var f := AfterLast(a, '/');
    SuffixKeepsAbsence(a, f);
    SuffixOfSuffix(path, a, f);
    if |f| < |a| {
      SuffixAgreesFromEnd(path, a, |f| + 1);
    }
    FinalComponentUnique(path, f);
  }

  lemma SuffixOfSuffix(s: string, a: string, f: string)
    requires IsSuffixOf(a, s) && IsSuffixOf(f, a)
    ensures IsSuffixOf(f, s)
  {
    forall i | 0 <= i < |f|
      ensures f[i] == s[|s| - |f| + i]
    {
      assert f[i] == a[|a| - |f| + i];
    }
  }

  lemma SuffixKeepsAbsence(a: string, f: string)
    requires IsSuffixOf(f, a)
    requires '\\' !in a && '/' !in f
    ensures NoSeparator(f)
  {
    forall i | 0 <= i < |f|
      ensures !IsSeparator(f[i])
    {
      assert f[i] == a[|a| - |f| + i];
    }
  }

  /** p is the prefix of s through the last occurrence of c. */
  predicate PrefixThroughLast(s: string, p: string, c: char)
  {
    0 < |p| && p <= s && p[|p| - 1] == c && AbsentAfter(s, |p| - 1, c)
  }

  /**
   * get_dir: the path copied into a buffer of maxLen characters, kept through its last backslash;
   * only when it has no backslash at all, through its last slash; otherwise ".\".
   */
  function GetDir(path: string, maxLen: nat): (dir: string)
    requires maxLen >= 3
    ensures var copy := BoundedCopy(path, maxLen);
      && ('\\' in copy ==> PrefixThroughLast(copy, dir, '\\'))
      && ('\\' !in copy && '/' in copy ==> PrefixThroughLast(copy, dir, '/'))
      && ('\\' !in copy && '/' !in copy ==> dir == ".\\")
  {
    var copy := BoundedCopy(path, maxLen);
    match LastIndex(copy, '\\')
    case Some(k) => copy[..k + 1]
    case None =>
      match LastIndex(copy, '/')
      case Some(k) => copy[..k + 1]
      case None => ".\\"
  }

  /** get_builder_dir: the directory of the builder's own executable, by the same rule as get_dir. */
  function StubPath(modulePath: string): string
  {
    BoundedCopy(GetDir(modulePath, MaxPath) + StubFileName, MaxPath)
  }

  /** The stub is looked for in the builder's directory; a path too long for MAX_PATH is cut short. */
  lemma StubPathInBuilderDir(modulePath: string)
    ensures var full := GetDir(modulePath, MaxPath) + StubFileName;
      && |StubPath(modulePath)| < MaxPath
      && StubPath(modulePath) <= full
      && (|full| < MaxPath ==> StubPath(modulePath) == full)
  {
  }

  /** snprintf(output_path, MAX_PATH, "%s%s%s.exe", dir, basename, suffix). */
  function OutputPath(dwgPath: string, suffix: string): string
  {
    BoundedCopy(GetDir(dwgPath, MaxPath) + GetBasename(dwgPath, MaxPath) + suffix + ".exe", MaxPath)
  }

  /**
   * The output sits in the design file's directory and is named after its final component, dot
   * part removed, followed by the suffix and ".exe"; a path too long for MAX_PATH is cut short.
   */
  lemma OutputPathNextToDesign(dwgPath: string, suffix: string)
    ensures var full := GetDir(dwgPath, MaxPath)
                        + TruncateAtLast(BoundedCopy(FinalComponent(dwgPath), MaxPath), '.')
                        + suffix + ".exe";
      && |OutputPath(dwgPath, suffix)| < MaxPath
      && OutputPath(dwgPath, suffix) <= full
      && (|full| < MaxPath ==> OutputPath(dwgPath, suffix) == full)
  {
    GetBasenameOfFinalComponent(dwgPath, MaxPath);
  }

  // ---------------------------------------------------------------- the container

  /**
   * The bytes build_protected_exe writes: stub, ciphered payload, then the footer for the payload's
   * size, stored as (uint64_t)dwg_size.
   */
  function ContainerBytes(stub: seq<byte>, payload: seq<byte>): seq<byte>
  {
    stub + Xored(payload) + EncodeFooter(Footer(|payload| % TwoTo64, MagicMarker))
  }

  /** The container is the stub, then the payload enciphered byte for byte, then the 16-byte footer. */
  lemma ContainerLayout(stub: seq<byte>, payload: seq<byte>)
    requires |payload| < TwoTo64
    ensures var r := ContainerBytes(stub, payload);
      && |r| == |stub| + |payload| + FooterSize
      && r[..|stub|] == stub
      && r[|stub|..|stub| + |payload|] == Xored(payload)
      && r[|r| - FooterSize..] == EncodeFooter(Footer(|payload|, MagicMarker))
  {
    var r := ContainerBytes(stub, payload);
    var x := Xored(payload);
    assert |payload| % TwoTo64 == |payload|;
    var e := EncodeFooter(Footer(|payload|, MagicMarker));
    assert r == stub + x + e;
    assert r[..|stub|] == stub;
    assert r[|stub|..|stub| + |payload|] == x;
    assert r[|r| - FooterSize..] == e;
  }

  /**
   * The three checked fwrite calls of build_protected_exe on a freshly truncated output: it stops
   * at the first write that comes up short, and succeeds only when all three are complete.
   */
  method WriteContainer(vol: Volume, path: string, stub: seq<byte>, payload: seq<byte>, footer: seq<byte>)
    returns (ok: bool)
    requires path in vol.files && vol.files[path] == []
    modifies vol
    ensures vol.files == old(vol.files)[path := Accepted(stub + payload + footer, old(vol.free))]
    ensures ok <==> |stub| + |payload| + |footer| <= old(vol.free)
  {
    ghost var budget := vol.free;
    assert stub + payload + footer == stub + (payload + footer);
    var n := vol.Append(path, stub);
    if n != |stub| {
      AcceptedStopsInside(stub, payload + footer, budget);
      assert vol.files[path] == stub[..budget];
      return false;
    }
    AcceptedPassesWhole(stub, payload + footer, budget);
    n := vol.Append(path, payload);
    if n != |payload| {
      AcceptedStopsInside(payload, footer, budget - |stub|);
      assert vol.files[path] == stub + payload[..budget - |stub|];
      return false;
    }
    AcceptedPassesWhole(payload, footer, budget - |stub|);
    n := vol.Append(path, footer);
    assert vol.files[path] == stub + (payload + Accepted(footer, budget - |stub| - |payload|));
    if n != |footer| {
      return false;
    }
    ok := true;
  }

  /**
   * What build_protected_exe leaves behind, given what reading the stub and the design file gave:
   * when a read fails or the output cannot be created, result 1 and no file changed; otherwise the
   * output holds as much of the container as the device accepted, and the result is 0 exactly when
   * all of it fit.
   */
  ghost predicate Built(stubIn: Option<seq<byte>>, dwgIn: Option<seq<byte>>, outputPath: string,
                        locked: set<string>, before: map<string, seq<byte>>, budget: nat,
                        after: map<string, seq<byte>>, result: int)
  {
    if stubIn.None? || dwgIn.None? || outputPath in locked then
      result == 1 && after == before
    else
      var full := ContainerBytes(stubIn.value, dwgIn.value);
      && after == before[outputPath := Accepted(full, budget)]
      && (result == 0 <==> |full| <= budget)
      && (result == 0 || result == 1)
  }

  /** Built, with the output written where OutputPath puts it for this design file and suffix. */
  ghost predicate BuiltNextToDesign(stubIn: Option<seq<byte>>, dwgIn: Option<seq<byte>>, dwgPath: string,
                                    suffix: string, outputPath: Option<string>, locked: set<string>,
                                    before: map<string, seq<byte>>, budget: nat,
                                    after: map<string, seq<byte>>, result: int)
  {
    && outputPath == Some(OutputPath(dwgPath, suffix))
    && Built(stubIn, dwgIn, outputPath.value, locked, before, budget, after, result)
  }

  /** A build that returns 0 read both inputs and left the whole container in the output, byte for byte. */
  lemma BuiltSuccessIsWhole(stubIn: Option<seq<byte>>, dwgIn: Option<seq<byte>>, outputPath: string,
                            locked: set<string>, before: map<string, seq<byte>>, budget: nat,
                            after: map<string, seq<byte>>)
    requires Built(stubIn, dwgIn, outputPath, locked, before, budget, after, 0)
    ensures stubIn.Some? && dwgIn.Some? && outputPath !in locked
    ensures after == before[outputPath := ContainerBytes(stubIn.value, dwgIn.value)]
  {
    AcceptedAll(ContainerBytes(stubIn.value, dwgIn.value), budget);
  }

  /**
   * The file work of build_protected_exe once both paths are known: read the stub and the design
   * file, encipher the design file, create the output and write the container to it. Returns 0
   * after all three writes succeed and 1 otherwise. A failure before the output is opened changes
   * nothing; a write that comes up short leaves the output holding as much of the container as
   * the device accepted.
   */
  method WriteProtectedExe(vol: Volume, stubPath: string, dwgPath: string, outputPath: string)
    returns (result: int)
    modifies vol
    ensures Built(old(ReadFile(vol, stubPath)), old(ReadFile(vol, dwgPath)), outputPath,
                  vol.locked, old(vol.files), old(vol.free), vol.files, result)
  {
    result := 1;
    var stubData := ReadFile(vol, stubPath);
    if stubData.None? {
      return;
    }
    var dwgData := ReadFile(vol, dwgPath);
    if dwgData.None? {
      return;
    }

    var dwg := dwgData.value;
    var buffer := NewBuffer(dwg);
    XorCrypt(buffer);
    var encoded := EncodeFooter(Footer(|dwg| % TwoTo64, MagicMarker));
    assert stubData.value + buffer[..] + encoded == ContainerBytes(stubData.value, dwg);

    var created := vol.Create(outputPath);
    if !created {
      return;
    }
    var ok := WriteContainer(vol, outputPath, stubData.value, buffer[..], encoded);
    if ok {
      result := 0;
    }
  }

  /**
   * build_protected_exe: the stub is looked for next to the builder, the output is named after
   * the design file, and the file work is as WriteProtectedExe states.
   */
  method BuildProtectedExe(vol: Volume, modulePath: string, dwgPath: string, suffix: string)
    returns (result: int, outputPath: string)
    modifies vol
    ensures outputPath == OutputPath(dwgPath, suffix)
    ensures Built(old(ReadFile(vol, StubPath(modulePath))), old(ReadFile(vol, dwgPath)), outputPath,
                  vol.locked, old(vol.files), old(vol.free), vol.files, result)
  {
    var stubPath := StubPath(modulePath);
    outputPath := OutputPath(dwgPath, suffix);
    result := WriteProtectedExe(vol, stubPath, dwgPath, outputPath);
  }

  // ---------------------------------------------------------------- input normalisation in main

  predicate IsLineEnd(c: char) { c == '\n' || c == '\r' }

  /** t is s without its trailing run of newline and carriage-return characters. */
  predicate IsLineTrimmed(s: string, t: string)
  {
    && t <= s
    && (t == [] || !IsLineEnd(t[|t| - 1]))
    && forall i :: |t| <= i < |s| ==> IsLineEnd(s[i])
  }

  /** `while (len > 0 && (s[len-1] == '\n' || s[len-1] == '\r')) s[--len] = '\0';` */
  method TrimLineEnd(s: string) returns (t: string)
    ensures IsLineTrimmed(s, t)
  {
    var len := |s|;
    while len > 0 && IsLineEnd(s[len - 1])
      invariant 0 <= len <= |s|
      invariant forall i :: len <= i < |s| ==> IsLineEnd(s[i])
    {
      len := len - 1;
    }
    t := s[..len];
  }

  /**
   * A path typed with a leading double quote loses it, and is cut at the next double quote
   * (memmove by one, then strchr for the closing quote). Other input is left as it is.
   */
  function StripQuotes(s: string): (r: string)
    ensures |s| > 0 && s[0] == '"' ==>
      && '"' !in r
      && |r| < |s| && (forall i :: 0 <= i < |r| ==> r[i] == s[1 + i])
      && (1 + |r| < |s| ==> s[1 + |r|] == '"')
    ensures !(|s| > 0 && s[0] == '"') ==> r == s
  {
    if |s| > 0 && s[0] == '"' then
      var rest := s[1..];
      match FirstIndex(rest, '"')
      case None => rest
      case Some(k) => rest[..k]
    else s
  }

  /**
   * The design-file path main works on: the first argument truncated to MAX_PATH - 1 characters
   * when one is given, otherwise the line read at the prompt with its line end and quotes removed
   * (None when reading the prompt fails).
   */
  method InputPath(arg: Option<string>, line: Option<string>) returns (path: Option<string>)
    ensures arg.Some? ==> path == Some(BoundedCopy(arg.value, MaxPath))
    ensures arg.None? && line.None? ==> path.None?
    ensures arg.None? && line.Some? ==>
      path.Some? && exists t :: IsLineTrimmed(line.value, t) && path.value == StripQuotes(t)
  {
    if arg.Some? {
      return Some(BoundedCopy(arg.value, MaxPath));
    }
    if line.None? {
      return None;
    }
    var trimmed := TrimLineEnd(line.value);
    path := Some(StripQuotes(trimmed));
  }

  /**
   * The output suffix main uses: "_protected" when reading the prompt fails or the line is empty
   * once its line end is removed, the trimmed line otherwise.
   */
  method SuffixFromInput(line: Option<string>) returns (suffix: string)
    ensures suffix != []
    ensures line.None? ==> suffix == DefaultSuffix
    ensures line.Some? ==>
      (IsLineTrimmed(line.value, suffix) || (suffix == DefaultSuffix && IsLineTrimmed(line.value, [])))
  {
    if line.None? {
      return DefaultSuffix;
    }
    suffix := TrimLineEnd(line.value);
    if |suffix| == 0 {
      suffix := DefaultSuffix;
    }
  }

  /**
   * main: resolves the design-file path, refuses a path that does not exist, resolves the suffix
   * and runs the build; the exit code is 1 on any failure and 0 after a complete build.
   */
  method RunBuilder(vol: Volume, modulePath: string, arg: Option<string>,
                    pathLine: Option<string>, suffixLine: Option<string>)
    returns (exitCode: int, dwgPath: Option<string>, suffix: string, outputPath: Option<string>)
    modifies vol
    ensures exitCode == 0 || exitCode == 1
    ensures arg.Some? ==> dwgPath == Some(BoundedCopy(arg.value, MaxPath))
    ensures arg.None? && pathLine.None? ==> dwgPath.None?
    ensures arg.None? && pathLine.Some? ==>
      dwgPath.Some? && exists t :: IsLineTrimmed(pathLine.value, t) && dwgPath.value == StripQuotes(t)
    ensures dwgPath.None? || dwgPath.value !in old(vol.files) ==>
      exitCode == 1 && outputPath.None? && vol.files == old(vol.files)
    ensures dwgPath.Some? && dwgPath.value in old(vol.files) ==>
      && suffix != []
      && (suffixLine.None? ==> suffix == DefaultSuffix)
      && (suffixLine.Some? ==>
            IsLineTrimmed(suffixLine.value, suffix) || (suffix == DefaultSuffix && IsLineTrimmed(suffixLine.value, [])))
      && BuiltNextToDesign(old(ReadFile(vol, StubPath(modulePath))), old(ReadFile(vol, dwgPath.value)), dwgPath.value,
                           suffix, outputPath, vol.locked, old(vol.files), old(vol.free), vol.files, exitCode)
  {
    suffix := DefaultSuffix;
    outputPath := None;
    dwgPath := InputPath(arg, pathLine);
    if dwgPath.None? || dwgPath.value !in vol.files {
      return 1, dwgPath, suffix, None;
    }
    var out;
    exitCode, suffix, out := BuildWithSuffix(vol, modulePath, dwgPath.value, suffixLine);
    outputPath := Some(out);
  }

  /** The part of main after the existence check: read the suffix, then build. */
  method BuildWithSuffix(vol: Volume, modulePath: string, dwgPath: string, suffixLine: Option<string>)
    returns (exitCode: int, suffix: string, outputPath: string)
    modifies vol
    ensures exitCode == 0 || exitCode == 1
    ensures suffix != []
    ensures suffixLine.None? ==> suffix == DefaultSuffix
    ensures suffixLine.Some? ==>
      IsLineTrimmed(suffixLine.value, suffix) || (suffix == DefaultSuffix && IsLineTrimmed(suffixLine.value, []))
    ensures outputPath == OutputPath(dwgPath, suffix)
    ensures Built(old(ReadFile(vol, StubPath(modulePath))), old(ReadFile(vol, dwgPath)), outputPath,
                  vol.locked, old(vol.files), old(vol.free), vol.files, exitCode)
  {
    suffix := SuffixFromInput(suffixLine);
    exitCode, outputPath := BuildProtectedExe(vol, modulePath, dwgPath, suffix);
  }
}
