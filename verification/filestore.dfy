/** `entities.File`: a vault entry as FindAll reports it. */
module Entities {
  datatype File = File(name: string, size: int, path: string)
}

/**
 * The local vault directory (`FileSystemRepository`). The directory at
 * `storagePath` is a map from entry name to node; files elsewhere on the
 * host (the plaintext EncryptFile* reads, the path DecryptFile writes) are
 * a separate `Disk`. Reads from a file return everything it holds, one
 * buffer at a time; read and write failures of an open file are not
 * modelled.
 */
module FileStore {
  import opened Common
  import Paths
  import Entities
  import opened Chunking

  /** AES-256 wants a 32-byte key. */
  const KeySize: nat := 32
  /** The AES block size, which is the IV length cipher.NewCTR demands. */
  const AesBlockSize: nat := 16

  /** Byte `i` of the password, or zero past its end. */
  function PaddedByte(password: Bytes, i: nat): bv8
  {
    if i < |password| then password[i] else 0
  }

  /**
   * `deriveKey`: copy the password into a zeroed 32-byte buffer, so a short
   * password is zero-padded and a long one truncated. No salt, no KDF.
   */
  function DeriveKey(password: Bytes): (key: Bytes)
    ensures |key| == KeySize
    ensures forall i :: 0 <= i < KeySize ==> key[i] == PaddedByte(password, i)
  {
    if |password| >= KeySize then password[..KeySize]
    else password + seq(KeySize - |password|, _ => 0 as bv8)
  }

  /** Two passwords give the same key exactly when their zero-padded first 32 bytes agree. */
  lemma DeriveKeySameIff(p: Bytes, q: Bytes)
    ensures DeriveKey(p) == DeriveKey(q) <==> forall i :: 0 <= i < KeySize ==> PaddedByte(p, i) == PaddedByte(q, i)
  {
    if forall i :: 0 <= i < KeySize ==> PaddedByte(p, i) == PaddedByte(q, i) {
      assert forall i :: 0 <= i < KeySize ==> DeriveKey(p)[i] == DeriveKey(q)[i];
    }
  }

  /** Everything past the 32nd byte is ignored, and trailing zero bytes of a short password are invisible. */
  lemma DeriveKeyCollisions(p: Bytes, extra: Bytes)
    ensures |p| >= KeySize ==> DeriveKey(p + extra) == DeriveKey(p)
    ensures |p| < KeySize ==> DeriveKey(p + [0]) == DeriveKey(p)
  {
    if |p| >= KeySize {
      DeriveKeySameIff(p + extra, p);
      assert forall i :: 0 <= i < KeySize ==> (p + extra)[i] == p[i];
    } else {
      DeriveKeySameIff(p + [0], p);
    }
  }

  /** A directory entry: a regular file with its content, or an (empty) sub-directory. */
  datatype Node = Regular(data: Bytes) | Directory

  /** An `io.Reader` handed to Save: it yields `bytes`, then EOF or the error `failure`. */
  datatype Reader = Reader(bytes: Bytes, failure: Option<Error>)

  /** How a call ended: a normal return with an optional error, or a Go panic. */
  datatype Completion = Returned(err: Option<Error>) | Panicked

  /**
   * The name of an entry of the vault directory. It is never empty: the
   * empty name joins to the vault directory itself.
   */
  type EntryName = s: string | s != "" witness "entry"

  /** os.Stat finds `name`'s path: the vault directory itself, or one of its entries. */
  predicate Present(entries: map<EntryName, Node>, name: string)
  {
    name == "" || name in entries
  }

  /** `name`'s path is a directory: the vault directory itself, or a sub-directory entry. */
  predicate IsDirectory(entries: map<EntryName, Node>, name: string)
  {
    name == "" || (name in entries && entries[name].Directory?)
  }

  /**
   * Files of the host outside the vault directory, by path; the host's
   * directories, which os.Stat and os.Open accept and which fail when read;
   * and the paths os.Create refuses (a directory, a path under a missing
   * directory, or one without write permission). A path is a file or a
   * directory, not both, and a directory cannot be created as a file.
   */
  class Disk {
    var files: map<string, Bytes>
    const dirs: set<string>
    const uncreatable: set<string>

    constructor (files: map<string, Bytes>, dirs: set<string>, uncreatable: set<string>)
      requires files.Keys !! dirs && dirs <= uncreatable
      ensures this.files == files && this.dirs == dirs && this.uncreatable == uncreatable
    {
      this.files := files;
      this.dirs := dirs;
      this.uncreatable := uncreatable;
    }
  }

  class FileSystemRepository {
    const storagePath: string
    /** The AES-GCM primitives of the Go standard library. */
    const gcm: Aead
    var entries: map<EntryName, Node>

    /** NewFileSystemRepository on a directory that already holds `entries`. */
    constructor (storagePath: string, gcm: Aead, entries: map<EntryName, Node>)
      ensures this.storagePath == storagePath && this.gcm == gcm && this.entries == entries
    {
      this.storagePath := storagePath;
      this.gcm := gcm;
      this.entries := entries;
    }

    /** A pure join of the storage path and the name: no I/O, no lock. */
    function GetPath(name: string): (path: string)
      ensures name == "" ==> path == storagePath
      ensures storagePath != "" && name != "" ==>
                && |path| == |storagePath| + 1 + |name|
                && path[..|storagePath|] == storagePath
                && path[|storagePath|] == Paths.Separator
                && path[|storagePath| + 1..] == name
    {
      Paths.Join(storagePath, name)
    }

    /** Distinct names get distinct paths. */
    lemma GetPathInjective(a: string, b: string)
      requires GetPath(a) == GetPath(b)
      ensures a == b
    {
      Paths.JoinInjective(storagePath, a, b);
    }

    /**
     * Create (or truncate) the entry, then copy the reader into it. The
     * write is not atomic: when the reader fails, the entry keeps what was
     * copied before the failure and the error is returned.
     */
    method Save(name: string, data: Reader) returns (err: Option<Error>)
      modifies this
      ensures IsDirectory(old(entries), name) ==>
                err == Some(PathError("open", GetPath(name))) && entries == old(entries)
      ensures !IsDirectory(old(entries), name) ==>
                err == data.failure && entries == old(entries)[name := Regular(data.bytes)]
    {
      if IsDirectory(entries, name) {
        return Some(PathError("open", GetPath(name)));
      }
      entries := entries[name := Regular([])];
      entries := entries[name := Regular(data.bytes)];
      err := data.failure;
    }

    /**
     * os.Remove of the entry's path; a missing entry is reported as
     * ErrFileNotFound. The empty name is the vault directory itself, which
     * os.Remove deletes when it is empty and refuses ("directory not
     * empty") otherwise.
     */
    method Delete(name: string) returns (err: Option<Error>)
      modifies this
      ensures name == "" && old(entries) != map[] ==>
                err == Some(PathError("remove", GetPath(name))) && entries == old(entries)
      ensures name == "" && old(entries) == map[] ==> err == None && entries == old(entries)
      ensures name != "" && name !in old(entries) ==> err == Some(FileNotFound) && entries == old(entries)
      ensures name != "" && name in old(entries) ==> err == None && entries == old(entries) - {name}
    {
      if name == "" {
        if entries != map[] {
          return Some(PathError("remove", GetPath(name)));
        }
        return None;
      }
      if name !in entries {
        return Some(FileNotFound);
      }
      entries := entries - {name};
      err := None;
    }

    /**
     * The content of an entry. A missing one is ErrFileNotFound; a
     * directory (the vault itself for the empty name) opens, and the
     * failure only surfaces when it is read.
     */
    method GetFileContent(name: string) returns (r: Result<Bytes>)
      ensures !Present(entries, name) ==> r == Err(FileNotFound)
      ensures name in entries && entries[name].Regular? ==> r == Ok(entries[name].data)
      ensures IsDirectory(entries, name) ==> r == Err(PathError("read", GetPath(name)))
    {
      if IsDirectory(entries, name) {
        return Err(PathError("read", GetPath(name)));
      }
      if name !in entries {
        return Err(FileNotFound);
      }
      r := Ok(entries[name].data);
    }

    /** `f` describes the regular entry it names: its joined path and its size. */
    ghost predicate Describes(f: Entities.File)
      reads this
    {
      f.name in entries && entries[f.name].Regular? &&
      f.path == GetPath(f.name) && f.size == |entries[f.name].data|
    }

    /**
     * One File per regular entry, with its joined path and its size;
     * directories are skipped. The order is whatever the listing gives.
     */
    method FindAll() returns (files: seq<Entities.File>)
      ensures forall i :: 0 <= i < |files| ==> Describes(files[i])
      ensures forall i, j :: 0 <= i < j < |files| ==> files[i].name != files[j].name
      ensures forall name :: name in entries && entries[name].Regular? ==>
                exists i :: 0 <= i < |files| && files[i].name == name
    {
      files := [];
      var listing := entries.Keys;
      while listing != {}
        invariant listing <= entries.Keys
        invariant forall i :: 0 <= i < |files| ==> Describes(files[i]) && files[i].name !in listing
        invariant forall i, j :: 0 <= i < j < |files| ==> files[i].name != files[j].name
        invariant forall name :: name in entries && entries[name].Regular? && name !in listing ==>
                    exists i :: 0 <= i < |files| && files[i].name == name
        decreases listing
      {
        var name :| name in listing;
        if entries[name].Regular? {
          var data := entries[name].data;
          ghost var before := files;
          files := files + [Entities.File(name, |data|, Paths.Join(storagePath, name))];
          assert forall i :: 0 <= i < |before| ==> files[i] == before[i];
          assert files[|before|].name == name;
        }
        listing := listing - {name};
      }
    }

    /**
     * EncryptFile as written. It opens the input, creates the output, writes
     * the 12-byte GCM nonce, and then hands that nonce to cipher.NewCTR as
     * the counter-mode IV. NewCTR requires an IV of one AES block (16 bytes)
     * and panics on anything else, so the call never gets to the encryption
     * loop: it leaves an entry holding only the header, and never returns
     * normally once both files are open. A host directory opens like a file,
     * so it meets the same panic.
     */
    method EncryptFile(disk: Disk, inputPath: string, outputName: string, password: Bytes, nonce: Bytes)
      returns (c: Completion)
      requires |nonce| == NonceSize
      modifies this
      ensures c != Returned(None)
      ensures inputPath !in disk.files && inputPath !in disk.dirs ==>
                c == Returned(Some(Wrapped(OpenInput, PathError("open", inputPath)))) && entries == old(entries)
      ensures (inputPath in disk.files || inputPath in disk.dirs) && IsDirectory(old(entries), outputName) ==>
                c == Returned(Some(Wrapped(CreateOutput, PathError("open", GetPath(outputName))))) && entries == old(entries)
      ensures (inputPath in disk.files || inputPath in disk.dirs) && !IsDirectory(old(entries), outputName) ==>
                c == Panicked && entries == old(entries)[outputName := Regular(nonce)]
    {
      var outputPath := GetPath(outputName);
      if inputPath !in disk.files && inputPath !in disk.dirs {
        return Returned(Some(Wrapped(OpenInput, PathError("open", inputPath))));
      }
      if IsDirectory(entries, outputName) {
        return Returned(Some(Wrapped(CreateOutput, PathError("open", outputPath))));
      }
      entries := entries[outputName := Regular([])];
      // aes.NewCipher accepts the key: DeriveKey always yields 32 bytes.
      var key := DeriveKey(password);
      entries := entries[outputName := Regular(nonce)];
      // cipher.NewCTR(block, nonce) with a 12-byte nonce: not one AES block.
      assert |nonce| != AesBlockSize;
      c := Panicked;
    }

    /**
     * EncryptFileBar: stat the input, create the output, write the nonce,
     * then seal each chunk of at most 4096 bytes with AES-GCM under that same
     * nonce and append it. A host directory passes the stat and the open,
     * so the output is created and gets the nonce before the first read of
     * the input fails. The progress bar is left out.
     */
    method EncryptFileBar(disk: Disk, inputPath: string, outputName: string, password: Bytes, nonce: Bytes)
      returns (err: Option<Error>)
      requires |nonce| == NonceSize
      modifies this
      ensures inputPath !in disk.files && inputPath !in disk.dirs ==>
                err == Some(PathError("stat", inputPath)) && entries == old(entries)
      ensures (inputPath in disk.files || inputPath in disk.dirs) && IsDirectory(old(entries), outputName) ==>
                err == Some(Wrapped(CreateOutput, PathError("open", GetPath(outputName)))) && entries == old(entries)
      ensures inputPath in disk.files && !IsDirectory(old(entries), outputName) ==>
                err == None &&
                entries == old(entries)[outputName := Regular(nonce + SealChunks(gcm, DeriveKey(password), nonce, disk.files[inputPath]))]
      ensures inputPath !in disk.files && inputPath in disk.dirs && !IsDirectory(old(entries), outputName) ==>
                err == Some(Wrapped(ReadInput, PathError("read", inputPath))) &&
                entries == old(entries)[outputName := Regular(nonce)]
    {
      if inputPath !in disk.files && inputPath !in disk.dirs {
        return Some(PathError("stat", inputPath));
      }
      var outputPath := GetPath(outputName);
      if IsDirectory(entries, outputName) {
        return Some(Wrapped(CreateOutput, PathError("open", outputPath)));
      }
      entries := entries[outputName := Regular([])];
      var key := DeriveKey(password);
      entries := entries[outputName := Regular(nonce)];
      if inputPath !in disk.files {
        // Reading a directory fails with EISDIR.
        return Some(Wrapped(ReadInput, PathError("read", inputPath)));
      }
      var input := disk.files[inputPath];
      ghost var whole := nonce + SealChunks(gcm, key, nonce, input);
      var pos := 0;
      while pos < |input|
        invariant 0 <= pos <= |input|
        invariant outputName in entries && entries[outputName].Regular?
        invariant entries == old(entries)[outputName := entries[outputName]]
        invariant entries[outputName].data + SealChunks(gcm, key, nonce, input[pos..]) == whole
        decreases |input| - pos
      {
        var n := Min(ChunkSize, |input| - pos);
        var sealed := gcm.seal(key, nonce, input[pos..pos + n]);
        assert input[pos..][..n] == input[pos..pos + n];
        assert input[pos..][n..] == input[pos + n..];
        entries := entries[outputName := Regular(entries[outputName].data + sealed)];
        pos := pos + n;
      }
      assert input[pos..] == [];
      assert entries[outputName] == Regular(whole);
      err := None;
    }

    /**
     * DecryptFile: stat and open the entry, create the output file, read the
     * 12-byte nonce, then open consecutive pieces of at most 4112 bytes with
     * that nonce, appending each plaintext. The first piece that fails
     * authentication ends the call; what was written before stays written.
     * The empty name is the vault directory itself: it opens, and reading
     * the nonce from it fails.
     */
    method DecryptFile(inputName: string, outputPath: string, password: Bytes, disk: Disk)
      returns (err: Option<Error>)
      modifies disk
      ensures !Present(entries, inputName) ==>
                err == Some(PathError("stat", GetPath(inputName))) && disk.files == old(disk.files)
      ensures Present(entries, inputName) && outputPath in disk.uncreatable ==>
                err == Some(Wrapped(CreateOutput, PathError("open", outputPath))) && disk.files == old(disk.files)
      ensures IsDirectory(entries, inputName) && outputPath !in disk.uncreatable ==>
                err == Some(Wrapped(ReadNonce, PathError("read", GetPath(inputName)))) &&
                disk.files == old(disk.files)[outputPath := []]
      ensures inputName in entries && entries[inputName].Regular? && outputPath !in disk.uncreatable &&
              |entries[inputName].data| < NonceSize ==>
                var data := entries[inputName].data;
                err == Some(Wrapped(ReadNonce, Message(if |data| == 0 then "EOF" else "unexpected EOF"))) &&
                disk.files == old(disk.files)[outputPath := []]
      ensures inputName in entries && entries[inputName].Regular? && outputPath !in disk.uncreatable &&
              |entries[inputName].data| >= NonceSize ==>
                var data := entries[inputName].data;
                var o := OpenPieces(gcm, DeriveKey(password), data[..NonceSize], data[NonceSize..]);
                disk.files == old(disk.files)[outputPath := o.plain] &&
                (o.complete ==> err == None) &&
                (!o.complete ==> err == Some(Wrapped(DecryptChunk, Message("cipher: message authentication failed"))))
    {
      var inputPath := GetPath(inputName);
      if !Present(entries, inputName) {
        return Some(PathError("stat", inputPath));
      }
      if outputPath in disk.uncreatable {
        return Some(Wrapped(CreateOutput, PathError("open", outputPath)));
      }
      disk.files := disk.files[outputPath := []];
      var key := DeriveKey(password);
      if IsDirectory(entries, inputName) {
        return Some(Wrapped(ReadNonce, PathError("read", inputPath)));
      }
      var data := entries[inputName].data;
      if |data| < NonceSize {
        return Some(Wrapped(ReadNonce, Message(if |data| == 0 then "EOF" else "unexpected EOF")));
      }
      var nonce := data[..NonceSize];
      var complete := AppendOpened(gcm, key, nonce, data[NonceSize..], disk, outputPath);
      ghost var o := OpenPieces(gcm, key, nonce, data[NonceSize..]);
      assert [] + o.plain == o.plain;
      if !complete {
        return Some(Wrapped(DecryptChunk, Message("cipher: message authentication failed")));
      }
      err := None;
    }
  }

  /**
   * The decrypt loop of DecryptFile: open consecutive pieces of `body` of
   * at most 4112 bytes and append each plaintext to the output file, up to
   * the first piece that fails to open.
   */
  method AppendOpened(g: Aead, key: Bytes, nonce: Bytes, body: Bytes, disk: Disk, outputPath: string)
    returns (complete: bool)
    requires outputPath in disk.files
    modifies disk
    ensures var o := OpenPieces(g, key, nonce, body);
            disk.files == old(disk.files)[outputPath := old(disk.files[outputPath]) + o.plain] && complete == o.complete
  {
    ghost var whole := OpenPieces(g, key, nonce, body);
    ghost var start := disk.files[outputPath];
    var pos := 0;
    while pos < |body|
      invariant 0 <= pos <= |body|
      invariant outputPath in disk.files
      invariant disk.files == old(disk.files)[outputPath := disk.files[outputPath]]
      invariant var rest := OpenPieces(g, key, nonce, body[pos..]);
                disk.files[outputPath] + rest.plain == start + whole.plain && rest.complete == whole.complete
      decreases |body| - pos
    {
      var n := Min(SealedChunkSize, |body| - pos);
      assert body[pos..][..n] == body[pos..pos + n];
      assert body[pos..][n..] == body[pos + n..];
      var piece := g.open(key, nonce, body[pos..pos + n]);
      if piece.None? {
        assert OpenPieces(g, key, nonce, body[pos..]) == Opened([], false);
        assert disk.files[outputPath] + [] == disk.files[outputPath];
        return false;
      }
      disk.files := disk.files[outputPath := disk.files[outputPath] + piece.value];
      pos := pos + n;
    }
    assert body[pos..] == [];
    assert disk.files[outputPath] + [] == disk.files[outputPath];
    complete := true;
  }

  /**
   * The file-repository test's round trip, with the sealing variant: what
   * EncryptFileBar stores, DecryptFile turns back into the original bytes.
   */
  method EncryptThenDecrypt(repo: FileSystemRepository, disk: Disk, inputPath: string, name: string,
                            outputPath: string, password: Bytes, nonce: Bytes)
    returns (err1: Option<Error>, err2: Option<Error>)
    requires Sound(repo.gcm)
    requires |nonce| == NonceSize
    requires inputPath in disk.files && !IsDirectory(repo.entries, name) && outputPath !in disk.uncreatable
    modifies repo, disk
    ensures err1 == None && err2 == None
    ensures disk.files == old(disk.files)[outputPath := old(disk.files[inputPath])]
  {
    err1 := repo.EncryptFileBar(disk, inputPath, name, password, nonce);
    ghost var plain := disk.files[inputPath];
    assert (nonce + SealChunks(repo.gcm, DeriveKey(password), nonce, plain))[..NonceSize] == nonce;
    assert (nonce + SealChunks(repo.gcm, DeriveKey(password), nonce, plain))[NonceSize..]
        == SealChunks(repo.gcm, DeriveKey(password), nonce, plain);
    OpenSealed(repo.gcm, DeriveKey(password), nonce, plain);
    err2 := repo.DecryptFile(name, outputPath, password, disk);
  }

  /**
   * The entry EncryptFile leaves behind holds only the header, which
   * DecryptFile accepts as an empty file: the bytes that were to be
   * encrypted are lost, whatever they were.
   */
  lemma HeaderOnlyEntryIsEmpty(g: Aead, password: Bytes, nonce: Bytes)
    requires |nonce| == NonceSize
    ensures OpenPieces(g, DeriveKey(password), nonce[..NonceSize], nonce[NonceSize..]) == Opened([], true)
  {
  }

  /**
   * The same round trip with EncryptFile as written: the call panics once
   * the header is written, and decrypting the entry it left succeeds with
   * an empty output file, so a non-empty input does not come back.
   */
  method EncryptPanicsThenDecryptsEmpty(repo: FileSystemRepository, disk: Disk, inputPath: string, name: string,
                                        outputPath: string, password: Bytes, nonce: Bytes)
    returns (c: Completion, err: Option<Error>)
    requires |nonce| == NonceSize
    requires inputPath in disk.files && !IsDirectory(repo.entries, name) && outputPath !in disk.uncreatable
    modifies repo, disk
    ensures c == Panicked && err == None
    ensures disk.files == old(disk.files)[outputPath := []]
    ensures old(disk.files[inputPath]) != [] ==> disk.files[outputPath] != old(disk.files[inputPath])
  {
    c := repo.EncryptFile(disk, inputPath, name, password, nonce);
    HeaderOnlyEntryIsEmpty(repo.gcm, password, nonce);
    err := repo.DecryptFile(name, outputPath, password, disk);
  }
}
