/**
  The replace-tokens task action: for each classes directory of the source set that
  is a directory, every walked path whose root-relative form ends in ".class" is
  read, decoded, run through the token pass and, only if the pass raised its flag,
  encoded and written back over the same path.

  The file system is a map from paths to entries; the bytecode codec is the pair of
  functions decode/encode, supplied by the caller.
 */
module ReplaceTokensTask {
  import opened Tokens
  import opened ClassModel
  import opened ClassTree
  import opened TokenPass

  type Bytes = seq<bv8>

  /** A path as its sequence of name elements. */
  type Path = seq<string>

  datatype Entry = File(bytes: Bytes) | Directory

  /** What ends a run early: an I/O failure reading a path, or bytes the class reader rejects. */
  datatype Error = ReadFailed(path: Path) | MalformedClass(path: Path)

  /** The entries after a number of steps, and the failure that stopped them, if any. */
  datatype Outcome = Outcome(entries: map<Path, Entry>, error: Option<Error>)

  /** A classes directory and the relative paths a walk of it lists, in walk order. */
  datatype ClassesDir = ClassesDir(root: Path, walk: seq<Path>)

  class FileStore {
    var entries: map<Path, Entry>

    constructor (entries: map<Path, Entry>)
      ensures this.entries == entries
    {
      this.entries := entries;
    }
  }

  /** The string form of a relative path, elements joined by the separator. */
  function Join(parts: Path): string {
    if parts == [] then ""
    else if |parts| == 1 then parts[0]
    else parts[0] + "/" + Join(parts[1..])
  }

  predicate IsClassFile(relative: Path) {
    EndsWith(Join(relative), ".class")
  }

  predicate IsDirectory(entries: map<Path, Entry>, p: Path) {
    p in entries && entries[p].Directory?
  }

  // ---------------------------------------------------------------------------
  // Specification of the run, as functions of the entries

  /** Read, decode, pass, and write back only when flagged. */
  function ProcessFileSpec(entries: map<Path, Entry>, path: Path, tokens: TokenMap,
                           decode: Bytes -> Option<ClassState>, encode: ClassState -> Bytes): Outcome
  {
    if path !in entries || !entries[path].File? then Outcome(entries, Some(ReadFailed(path)))
    else match decode(entries[path].bytes)
      case None => Outcome(entries, Some(MalformedClass(path)))
      case Some(cls) =>
        if ClassChanged(cls, tokens)
        then Outcome(entries[path := File(encode(RewriteClass(cls, tokens)))], None)
        else Outcome(entries, None)
  }

  /** One walked path: anything whose relative form does not end in ".class" is skipped. */
  function VisitPathSpec(entries: map<Path, Entry>, root: Path, relative: Path, tokens: TokenMap,
                         decode: Bytes -> Option<ClassState>, encode: ClassState -> Bytes): Outcome
  {
    if IsClassFile(relative) then ProcessFileSpec(entries, root + relative, tokens, decode, encode)
    else Outcome(entries, None)
  }

  function WalkSpec(entries: map<Path, Entry>, root: Path, walk: seq<Path>, tokens: TokenMap,
                    decode: Bytes -> Option<ClassState>, encode: ClassState -> Bytes): Outcome
    decreases |walk|
  {
    if walk == [] then Outcome(entries, None)
    else
      var o := VisitPathSpec(entries, root, walk[0], tokens, decode, encode);
      if o.error.Some? then o else WalkSpec(o.entries, root, walk[1..], tokens, decode, encode)
  }

  /** The classes directories in order; one that is not a directory is skipped. */
  function RunSpec(entries: map<Path, Entry>, dirs: seq<ClassesDir>, tokens: TokenMap,
                   decode: Bytes -> Option<ClassState>, encode: ClassState -> Bytes): Outcome
    decreases |dirs|
  {
    if dirs == [] then Outcome(entries, None)
    else if !IsDirectory(entries, dirs[0].root) then RunSpec(entries, dirs[1..], tokens, decode, encode)
    else
      var o := WalkSpec(entries, dirs[0].root, dirs[0].walk, tokens, decode, encode);
      if o.error.Some? then o else RunSpec(o.entries, dirs[1..], tokens, decode, encode)
  }

  // ---------------------------------------------------------------------------
  // The task action

  method ProcessClassFile(fs: FileStore, path: Path, tokens: TokenMap,
                          decode: Bytes -> Option<ClassState>, encode: ClassState -> Bytes)
    returns (error: Option<Error>)
    modifies fs
    ensures Outcome(fs.entries, error) == ProcessFileSpec(old(fs.entries), path, tokens, decode, encode)
  {
    if path !in fs.entries || !fs.entries[path].File? {
      return Some(ReadFailed(path));
    }
    var bytecode := fs.entries[path].bytes;
    var decoded := decode(bytecode);
    if decoded.None? {
      return Some(MalformedClass(path));
    }
    var classNode := NewClassNode(decoded.value);
    var hasReplacements := ReplaceTokens(classNode, tokens);
    if hasReplacements {
      var result := encode(classNode.View());
      fs.entries := fs.entries[path := File(result)];
    }
    error := None;
  }

  method WalkClassesDir(fs: FileStore, root: Path, walk: seq<Path>, tokens: TokenMap,
                        decode: Bytes -> Option<ClassState>, encode: ClassState -> Bytes)
    returns (error: Option<Error>)
    modifies fs
    ensures Outcome(fs.entries, error) == WalkSpec(old(fs.entries), root, walk, tokens, decode, encode)
  {
    var i := 0;
    while i < |walk|
      invariant 0 <= i <= |walk|
      invariant WalkSpec(old(fs.entries), root, walk, tokens, decode, encode)
             == WalkSpec(fs.entries, root, walk[i..], tokens, decode, encode)
    {
      assert walk[i..][0] == walk[i] && walk[i..][1..] == walk[i + 1..];
      var relative := walk[i];
      if IsClassFile(relative) {
        error := ProcessClassFile(fs, root + relative, tokens, decode, encode);
        if error.Some? {
          return;
        }
      }
      i := i + 1;
    }
    assert walk[i..] == [];
    error := None;
  }

  method Run(fs: FileStore, classesDirs: seq<ClassesDir>, tokens: TokenMap,
             decode: Bytes -> Option<ClassState>, encode: ClassState -> Bytes)
    returns (error: Option<Error>)
    modifies fs
    ensures Outcome(fs.entries, error) == RunSpec(old(fs.entries), classesDirs, tokens, decode, encode)
  {
    var d := 0;
    while d < |classesDirs|
      invariant 0 <= d <= |classesDirs|
      invariant RunSpec(old(fs.entries), classesDirs, tokens, decode, encode)
             == RunSpec(fs.entries, classesDirs[d..], tokens, decode, encode)
    {
      assert classesDirs[d..][0] == classesDirs[d] && classesDirs[d..][1..] == classesDirs[d + 1..];
      var dir := classesDirs[d];
      if IsDirectory(fs.entries, dir.root) {
        error := WalkClassesDir(fs, dir.root, dir.walk, tokens, decode, encode);
        if error.Some? {
          return;
        }
      }
      d := d + 1;
    }
    assert classesDirs[d..] == [];
    error := None;
  }

  // ---------------------------------------------------------------------------
  // Properties of a run

  /** Same paths, and every path keeps its kind: a run creates, deletes and moves nothing. */
  predicate SameLayout(e1: map<Path, Entry>, e2: map<Path, Entry>) {
    e1.Keys == e2.Keys && forall p | p in e1 :: e1[p].Directory? == e2[p].Directory?
  }

  /** p is a walked path of root whose relative form ends in ".class". */
  predicate WalkedClassFile(root: Path, walk: seq<Path>, p: Path) {
    exists k | 0 <= k < |walk| :: p == root + walk[k] && IsClassFile(walk[k])
  }

  lemma {:induction false} WalkWritesOnlyClassFiles(entries: map<Path, Entry>, root: Path, walk: seq<Path>,
                                                   tokens: TokenMap, decode: Bytes -> Option<ClassState>,
                                                   encode: ClassState -> Bytes)
    ensures SameLayout(entries, WalkSpec(entries, root, walk, tokens, decode, encode).entries)
    ensures forall p | p in entries && WalkSpec(entries, root, walk, tokens, decode, encode).entries[p] != entries[p] ::
      entries[p].File? && WalkedClassFile(root, walk, p)
    decreases |walk|
  {
    if walk != [] {
      var o := VisitPathSpec(entries, root, walk[0], tokens, decode, encode);
      assert SameLayout(entries, o.entries);
      assert forall p | p in entries && o.entries[p] != entries[p] :: p == root + walk[0] && IsClassFile(walk[0]);
      if o.error.None? {
        var w := WalkSpec(o.entries, root, walk[1..], tokens, decode, encode);
        WalkWritesOnlyClassFiles(o.entries, root, walk[1..], tokens, decode, encode);
        forall p | p in entries && w.entries[p] != entries[p]
          ensures entries[p].File? && WalkedClassFile(root, walk, p)
        {
          if o.entries[p] != entries[p] {
            assert p == root + walk[0];
          } else {
            var k :| 0 <= k < |walk[1..]| && p == root + walk[1..][k] && IsClassFile(walk[1..][k]);
            assert walk[k + 1] == walk[1..][k];
          }
        }
      }
    }
  }

  /**
    A run changes only the bytes of existing files that a walk of a classes directory
    (one that is a directory) lists with a ".class" relative path; it creates, deletes
    and retypes nothing, whether it completes or stops on an error.
   */
  lemma {:induction false} RunWritesOnlyClassFiles(entries: map<Path, Entry>, dirs: seq<ClassesDir>,
                                                  tokens: TokenMap, decode: Bytes -> Option<ClassState>,
                                                  encode: ClassState -> Bytes)
    ensures SameLayout(entries, RunSpec(entries, dirs, tokens, decode, encode).entries)
    ensures forall p | p in entries && RunSpec(entries, dirs, tokens, decode, encode).entries[p] != entries[p] ::
      && entries[p].File?
      && exists d | 0 <= d < |dirs| :: IsDirectory(entries, dirs[d].root) && WalkedClassFile(dirs[d].root, dirs[d].walk, p)
    decreases |dirs|
  {
    if dirs != [] {
      var r := RunSpec(entries, dirs, tokens, decode, encode);
      if !IsDirectory(entries, dirs[0].root) {
        RunWritesOnlyClassFiles(entries, dirs[1..], tokens, decode, encode);
        forall p | p in entries && r.entries[p] != entries[p]
          ensures exists d | 0 <= d < |dirs| :: IsDirectory(entries, dirs[d].root) && WalkedClassFile(dirs[d].root, dirs[d].walk, p)
        {
          var d :| 0 <= d < |dirs[1..]| && IsDirectory(entries, dirs[1..][d].root)
            && WalkedClassFile(dirs[1..][d].root, dirs[1..][d].walk, p);
          assert dirs[d + 1] == dirs[1..][d];
        }
      } else {
        var o := WalkSpec(entries, dirs[0].root, dirs[0].walk, tokens, decode, encode);
        WalkWritesOnlyClassFiles(entries, dirs[0].root, dirs[0].walk, tokens, decode, encode);
        if o.error.None? {
          RunWritesOnlyClassFiles(o.entries, dirs[1..], tokens, decode, encode);
          forall p | p in entries && r.entries[p] != entries[p]
            ensures entries[p].File?
            ensures exists d | 0 <= d < |dirs| :: IsDirectory(entries, dirs[d].root) && WalkedClassFile(dirs[d].root, dirs[d].walk, p)
          {
            if o.entries[p] != entries[p] {
              assert WalkedClassFile(dirs[0].root, dirs[0].walk, p);
            } else {
              var d :| 0 <= d < |dirs[1..]| && IsDirectory(o.entries, dirs[1..][d].root)
                && WalkedClassFile(dirs[1..][d].root, dirs[1..][d].walk, p);
              assert dirs[d + 1] == dirs[1..][d];
            }
          }
        }
      }
    }
  }

  /** The file at p, if it is one that decodes, holds a class the pass would not flag. */
  predicate UnflaggedAt(entries: map<Path, Entry>, p: Path, tokens: TokenMap, decode: Bytes -> Option<ClassState>) {
    p in entries && entries[p].File? && decode(entries[p].bytes).Some? ==>
      !ClassChanged(decode(entries[p].bytes).value, tokens)
  }

  lemma {:induction false} UnflaggedWalkWritesNothing(entries: map<Path, Entry>, root: Path, walk: seq<Path>,
                                                     tokens: TokenMap, decode: Bytes -> Option<ClassState>,
                                                     encode: ClassState -> Bytes)
    requires forall k | 0 <= k < |walk| && IsClassFile(walk[k]) :: UnflaggedAt(entries, root + walk[k], tokens, decode)
    ensures WalkSpec(entries, root, walk, tokens, decode, encode).entries == entries
    decreases |walk|
  {
    if walk != [] {
      assert IsClassFile(walk[0]) ==> UnflaggedAt(entries, root + walk[0], tokens, decode);
      forall k | 0 <= k < |walk[1..]| && IsClassFile(walk[1..][k])
        ensures UnflaggedAt(entries, root + walk[1..][k], tokens, decode)
      {
        assert walk[1..][k] == walk[k + 1];
      }
      UnflaggedWalkWritesNothing(entries, root, walk[1..], tokens, decode, encode);
    }
  }

  /**
    If no ".class" path walked under a classes directory that is a directory holds a
    class the pass would flag, the run writes nothing:
    every file keeps its input bytes (no re-encoding of unchanged classes).
   */
  lemma {:induction false} UnflaggedRunWritesNothing(entries: map<Path, Entry>, dirs: seq<ClassesDir>,
                                                    tokens: TokenMap, decode: Bytes -> Option<ClassState>,
                                                    encode: ClassState -> Bytes)
    requires forall d, k | 0 <= d < |dirs| && IsDirectory(entries, dirs[d].root)
                           && 0 <= k < |dirs[d].walk| && IsClassFile(dirs[d].walk[k]) ::
      UnflaggedAt(entries, dirs[d].root + dirs[d].walk[k], tokens, decode)
    ensures RunSpec(entries, dirs, tokens, decode, encode).entries == entries
    decreases |dirs|
  {
    if dirs != [] {
      forall d, k | 0 <= d < |dirs[1..]| && IsDirectory(entries, dirs[1..][d].root)
                    && 0 <= k < |dirs[1..][d].walk| && IsClassFile(dirs[1..][d].walk[k])
        ensures UnflaggedAt(entries, dirs[1..][d].root + dirs[1..][d].walk[k], tokens, decode)
      {
        assert dirs[1..][d] == dirs[d + 1];
      }
      if IsDirectory(entries, dirs[0].root) {
        UnflaggedWalkWritesNothing(entries, dirs[0].root, dirs[0].walk, tokens, decode, encode);
      }
      UnflaggedRunWritesNothing(entries, dirs[1..], tokens, decode, encode);
    }
  }
}
