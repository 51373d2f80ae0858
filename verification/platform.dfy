/**
 * The host the programs run on, reduced to the state the core reads and changes: the files on
 * disk (as the C runtime and the Win32 file calls see them) and the registry value that holds
 * the launch counter. Environment failures are part of the state, so every operation is
 * deterministic: a path in `locked` cannot be opened for writing or deleted, appends stop when
 * the device has no `free` bytes left, and the registry's create and set calls fail when the
 * corresponding flag says so.
 */
module Platform {
  import opened Wrappers
  import opened CLib

  /** `n` zero bytes. */
  function Zeros(n: nat): (r: seq<byte>)
    ensures |r| == n && forall i :: 0 <= i < n ==> r[i] == 0
  {
    seq(n, i => 0)
  }

  /** malloc(|data|) followed by a complete fread of data: a fresh buffer holding the bytes. */
  method NewBuffer(data: seq<byte>) returns (buffer: array<byte>)
    ensures fresh(buffer) && buffer[..] == data
  {
    buffer := new byte[|data|](i requires 0 <= i < |data| => data[i]);
  }

  /**
   * What a stream of writes leaves in a file when the device has room for `budget` more bytes:
   * the stream's first bytes, as many as fit.
   */
  function Accepted(data: seq<byte>, budget: nat): seq<byte>
  {
    data[..Min(|data|, budget)]
  }

  /** A write that does not fit is cut short, and nothing of what follows it reaches the file. */
  lemma AcceptedStopsInside(a: seq<byte>, rest: seq<byte>, budget: nat)
    requires budget < |a|
    ensures Accepted(a + rest, budget) == a[..budget]
  {
    assert (a + rest)[..budget] == a[..budget];
  }

  /** A write that fits reaches the file whole, and what follows it meets the room that is left. */
  lemma AcceptedPassesWhole(a: seq<byte>, rest: seq<byte>, budget: nat)
    requires |a| <= budget
    ensures Accepted(a + rest, budget) == a + Accepted(rest, budget - |a|)
  {
    assert (a + rest)[..Min(|a| + |rest|, budget)] == a + rest[..Min(|rest|, budget - |a|)];
  }

  /**
   * Writing d after a stream w, whatever became of w: the file gains the part of d that fits in
   * the room w left. Once a write has come up short there is no room, and later writes add nothing.
   */
  lemma AcceptedAppend(w: seq<byte>, d: seq<byte>, budget: nat)
    ensures |Accepted(w, budget)| <= budget
    ensures Accepted(w + d, budget)
         == Accepted(w, budget) + d[..Min(|d|, budget - |Accepted(w, budget)|)]
  {
    if |w| <= budget {
      AcceptedPassesWhole(w, d, budget);
      assert w[..|w|] == w;
    } else {
      AcceptedStopsInside(w, d, budget);
      assert d[..0] == [];
    }
  }

  /** A stream that fits reaches the file whole. */
  lemma AcceptedAll(data: seq<byte>, budget: nat)
    requires |data| <= budget
    ensures Accepted(data, budget) == data
  {
    assert data[..|data|] == data;
  }

  class Volume {
    /** The files that exist, by path, with their contents. */
    var files: map<string, seq<byte>>
    /** How many more bytes appends may add before the device reports that it is full. */
    var free: nat
    /** Paths that are read-only or in use: fopen refuses them for writing and DeleteFileA fails on them. */
    const locked: set<string>

    constructor (files: map<string, seq<byte>>, free: nat, locked: set<string>)
      ensures this.files == files && this.free == free && this.locked == locked
    {
      this.files := files;
      this.free := free;
      this.locked := locked;
    }

    /** fopen(path, "wb"): creates the file, or truncates it to zero bytes. */
    method Create(path: string) returns (ok: bool)
      modifies this
      ensures ok == (path !in locked)
      ensures files == if ok then old(files)[path := []] else old(files)
      ensures free == old(free)
    {
      ok := path !in locked;
      if ok {
        files := files[path := []];
      }
    }

    /** fwrite on a file opened with "wb": appends as much of data as the device accepts and returns the count. */
    method Append(path: string, data: seq<byte>) returns (n: nat)
      requires path in files
      modifies this
      ensures n == Min(|data|, old(free))
      ensures files == old(files)[path := old(files)[path] + data[..n]]
      ensures free == old(free) - n
    {
      n := Min(|data|, free);
      files := files[path := files[path] + data[..n]];
      free := free - n;
    }

    /** fwrite on a file opened with "r+b": replaces bytes in place, which needs no new space. */
    method Overwrite(path: string, offset: nat, data: seq<byte>)
      requires path in files && offset + |data| <= |files[path]|
      modifies this
      ensures files == old(files)[path := old(files)[path][..offset] + data + old(files)[path][offset + |data|..]]
      ensures free == old(free)
    {
      files := files[path := files[path][..offset] + data + files[path][offset + |data|..]];
    }

    /** DeleteFileA: removes the file unless it is missing or locked. */
    method Delete(path: string) returns (ok: bool)
      modifies this
      ensures ok == (path in old(files) && path !in locked)
      ensures files == if ok then old(files) - {path} else old(files)
      ensures free == old(free)
    {
      ok := path in files && path !in locked;
      if ok {
        files := files - {path};
      }
    }
  }

  /**
   * The one registry value the stub uses: HKCU\Software\MyCADLock, value LaunchCount (a DWORD).
   * `launchCount` is what RegQueryValueExA reads, None when the value is missing or unreadable.
   */
  class Registry {
    var keyExists: bool
    var launchCount: Option<U32>
    /** RegCreateKeyExA fails (no rights on HKEY_CURRENT_USER\Software). */
    const createFails: bool
    /** RegSetValueExA fails. */
    const setFails: bool

    ghost predicate Valid()
      reads this
    {
      launchCount.Some? ==> keyExists
    }

    constructor (keyExists: bool, launchCount: Option<U32>, createFails: bool, setFails: bool)
      requires launchCount.Some? ==> keyExists
      ensures Valid()
      ensures this.keyExists == keyExists && this.launchCount == launchCount
      ensures this.createFails == createFails && this.setFails == setFails
    {
      this.keyExists := keyExists;
      this.launchCount := launchCount;
      this.createFails := createFails;
      this.setFails := setFails;
    }

    /** RegOpenKeyExA followed by RegQueryValueExA: the stored DWORD, if the key and the value can be read. */
    function Query(): (r: Option<U32>)
      reads this
      requires Valid()
      ensures r.Some? ==> keyExists
    {
      if keyExists then launchCount else None
    }

    /** RegCreateKeyExA: opens the key, creating it when it is missing. */
    method CreateKey() returns (ok: bool)
      requires Valid()
      modifies this
      ensures Valid()
      ensures ok == !createFails
      ensures keyExists == (old(keyExists) || ok) && launchCount == old(launchCount)
    {
      ok := !createFails;
      if ok {
        keyExists := true;
      }
    }

    /** RegSetValueExA on the open key. */
    method SetValue(v: U32) returns (ok: bool)
      requires Valid() && keyExists
      modifies this
      ensures Valid() && keyExists
      ensures ok == !setFails
      ensures launchCount == if ok then Some(v) else old(launchCount)
    {
      ok := !setFails;
      if ok {
        launchCount := Some(v);
      }
    }
  }
}
