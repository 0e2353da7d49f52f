# keeper client core, modelled in Dafny

keeper is a client for an encrypted personal vault. This project models its core:

- **The local file repository** (`FileSystemRepository`). Vault entries live in one directory. The repository:
  - derives a key from the password;
  - encrypts a host file into an entry as a 12-byte nonce followed by AES-GCM-sealed chunks of up to 4096 bytes;
  - decrypts an entry back to a host file;
  - saves, deletes, reads and lists entries.
- **The in-memory token repository** (`MemoryRepository`).
- **The sync pass.** It reads the user's checkpoint and asks the server for rows deleted since then. It removes those rows locally, asks for the rows not deleted, downloads the missing ones, and writes a new checkpoint.
- **The commands** `encrypt`, `decrypt`, `card`, `delete` and `login`.

## How the model is built

**Repository state.** The vault directory is `FileStore.FileSystemRepository.entries`, a map from entry name to a regular file's bytes or a sub-directory. Files elsewhere on the host are `FileStore.Disk.files`, and the host's directories are `FileStore.Disk.dirs` (a path listed in both is read as a file). Entry names are never empty (`FileStore.EntryName`). The empty name joins to the vault directory itself, and each operation treats it as Go's file system does. `Disk.uncreatable` holds the host paths that `os.Create` refuses. Each repository operation is a method that updates these maps in place. Its contract gives the whole new state and the error for every branch of the Go code, except the failures listed under "Left out".

**Cryptography.** AES-GCM is abstract (`Chunking.Aead`). The proofs use only what `Chunking.Sound` states:
- a sealed chunk is 16 bytes longer than its plaintext;
- opening undoes sealing under the same key and nonce;
- nothing shorter than a tag opens.

The chunk framing itself is pure: `SealChunks` for encryption and `OpenPieces` for decryption. The encrypt and decrypt loops are proved against these functions, and the round trip is proved about the functions.

**Sync.** The pass is the pure function `Sync.Pass`. The method `Sync.Run` drives the collaborators, and its contract says it does exactly what `Pass` describes. It works through `Sync.Host`, which holds:
- the set of local paths;
- the checkpoint store;
- a log of the calls that change or fetch something: Delete, GetFileContent, Save, Get and DownloadFile. The file repository's `Exists` and `GetPath` only read the set of paths and are not logged.

Ordering, fail-fast, gating, idempotence and convergence are lemmas about `Pass` in `SyncProperties`.

**Outside world.** JSON encoding and decoding, the server's replies, the clock and the random nonce are all parameters.

## Model

| member | source | states |
|---|---|---|
| Paths.Join | internal/client/infrastructure/filestore/file_repository.go:43-45 | joining a directory and a name gives directory, '/', name; an empty element is dropped |
| Paths.JoinInjective | internal/client/infrastructure/filestore/file_repository.go:43-45 | under a fixed directory, the empty one included, two names never share a path |
| Chunking.Split | internal/client/infrastructure/filestore/file_repository.go:257-266 | the reads of a loop that asks for `size` bytes at a time concatenate back to the input; every read is non-empty and at most `size`; all but the last are full |
| Chunking.ChunkCount | internal/client/infrastructure/filestore/file_repository.go:255-266 | the encrypt loop reads ceil(n / 4096) chunks from an n-byte file |
| Chunking.SealChunksIsSealEach | internal/client/infrastructure/filestore/file_repository.go:257-280 | the body EncryptFileBar writes is each 4096-byte chunk sealed under the one header nonce, in order |
| Chunking.SealedLength | internal/client/infrastructure/filestore/file_repository.go:255-280 | the body is n + 16 * ceil(n / 4096) bytes long |
| Chunking.PiecesAlign | internal/client/infrastructure/filestore/file_repository.go:330-344 | the 4112-byte pieces the decrypt loop reads are exactly the sealed chunks the encrypt loop wrote |
| Chunking.OpenSealed | internal/client/infrastructure/filestore/file_repository.go:330-358 | decrypting the body of any plaintext yields that plaintext with no failure, the empty file included |
| Chunking.SealChunksAppend | internal/client/infrastructure/filestore/file_repository.go:257-280 | a plaintext split on a 4096-byte boundary is sealed as its two halves, independently |
| Chunking.RepeatedChunkRepeatsPiece | internal/client/infrastructure/filestore/file_repository.go:238-269 | with one nonce for every chunk, two equal full chunks give two equal sealed pieces |
| Chunking.OpenPiecesAppend | internal/client/infrastructure/filestore/file_repository.go:332-358 | the decrypt loop stops at the first piece that fails to open; the plaintext already written stays written |
| Chunking.TruncationOnChunkBoundaryUndetected | internal/client/infrastructure/filestore/file_repository.go:332-360 | a body cut off after whole chunks still decrypts without error, to the matching prefix of the plaintext |
| FileStore.DeriveKey | internal/client/infrastructure/filestore/file_repository.go:365-378 | the key is 32 bytes; byte i is password byte i, or zero past the password's end |
| FileStore.DeriveKeySameIff | internal/client/infrastructure/filestore/file_repository.go:365-378 | two passwords share a key exactly when their zero-padded first 32 bytes agree |
| FileStore.DeriveKeyCollisions | internal/client/infrastructure/filestore/file_repository.go:368-375 | bytes past the 32nd are ignored, and a trailing zero byte on a short password gives the same key |
| FileStore.FileSystemRepository.constructor | internal/client/infrastructure/filestore/file_repository.go:33-41 | a repository over a storage directory that already exists, with its entries |
| FileStore.FileSystemRepository.GetPath | internal/client/infrastructure/filestore/file_repository.go:43-45 | the path is the storage path, a separator, then the name; the empty name gives the storage path itself |
| FileStore.FileSystemRepository.GetPathInjective | internal/client/infrastructure/filestore/file_repository.go:43-45 | distinct entry names never share a path |
| FileStore.FileSystemRepository.Save | internal/client/infrastructure/filestore/file_repository.go:47-66 | a directory in the way, including the vault itself for the empty name, is an open error with nothing changed; otherwise the entry is created or truncated, and holds what the reader yielded before EOF or its error, which is returned |
| FileStore.FileSystemRepository.Delete | internal/client/infrastructure/filestore/file_repository.go:68-81 | an absent entry is ErrFileNotFound with nothing changed; otherwise exactly that entry is removed and no error is returned. The empty name removes the vault directory itself: this succeeds when the vault is empty, and is a remove error otherwise |
| FileStore.FileSystemRepository.GetFileContent | internal/client/infrastructure/filestore/file_repository.go:83-95 | an absent entry is ErrFileNotFound; a regular entry yields its bytes; a directory, including the vault itself for the empty name, fails when read |
| FileStore.FileSystemRepository.FindAll | internal/client/infrastructure/filestore/file_repository.go:97-126 | one File per regular entry, with distinct names, its joined path and its size; directories are skipped |
| FileStore.FileSystemRepository.EncryptFile | internal/client/infrastructure/filestore/file_repository.go:128-199 | never returns success. An input that is neither a host file nor a host directory, or an uncreatable output, is a wrapped error with nothing changed; otherwise, a directory input included, the entry holds only the nonce and the call panics in cipher.NewCTR |
| FileStore.FileSystemRepository.EncryptFileBar | internal/client/infrastructure/filestore/file_repository.go:201-283 | an input that is neither a host file nor a host directory is the stat error; an uncreatable output is a wrapped create error, with nothing changed. A directory input leaves the entry holding only the nonce and is the wrapped read error. Otherwise the entry becomes nonce + SealChunks(input). No other entry changes |
| FileStore.FileSystemRepository.DecryptFile | internal/client/infrastructure/filestore/file_repository.go:285-361 | a missing entry is the stat error, with no output. An output path os.Create refuses is a wrapped create error, with no output. Otherwise the output file is created. A directory (the vault itself for the empty name) or a blob shorter than the nonce is a wrapped read error. Otherwise the output holds the plaintext of the pieces up to the first one that fails, and that failure is the wrapped decryption error |
| FileStore.AppendOpened | internal/client/infrastructure/filestore/file_repository.go:330-358 | the decrypt loop appends exactly OpenPieces(body).plain to the output and reports whether every piece opened |
| FileStore.EncryptThenDecrypt | internal/client/infrastructure/filestore/file_repository_test.go:85-106 | encrypting a host file with EncryptFileBar and decrypting the entry under the same password both succeed, and the output equals the input |
| FileStore.HeaderOnlyEntryIsEmpty | internal/client/infrastructure/filestore/file_repository.go:163-175 | the entry EncryptFile leaves behind decrypts, without error, to the empty file |
| FileStore.EncryptPanicsThenDecryptsEmpty | internal/client/infrastructure/filestore/file_repository_test.go:85-106 | with EncryptFile as written, the test's round trip panics in EncryptFile. Decrypting the entry it left then succeeds with an empty output, so a non-empty input never comes back |
| MemStore.MemoryRepository.constructor | internal/client/infrastructure/memstore/mem_repository.go:18-23 | a new repository holds no tokens |
| MemStore.MemoryRepository.Save | internal/client/infrastructure/memstore/mem_repository.go:25-32 | never fails; the user's token is replaced and every other user's is untouched |
| MemStore.MemoryRepository.Delete | internal/client/infrastructure/memstore/mem_repository.go:34-41 | never fails; afterwards the user has no token, other users are untouched, and deleting an absent user changes nothing |
| MemStore.MemoryRepository.Get | internal/client/infrastructure/memstore/mem_repository.go:43-54 | a stored user's token with no error, or "" with ErrTokenNotFound |
| MemStore.SaveThenGet | internal/client/infrastructure/memstore/mem_repository_test.go:17-27 | Get after Save returns the saved token |
| MemStore.SaveTwiceThenGet | internal/client/infrastructure/memstore/mem_repository.go:25-32 | the later of two saves wins |
| MemStore.SaveDeleteThenGet | internal/client/infrastructure/memstore/mem_repository_test.go:35-47 | Get after Save then Delete is ErrTokenNotFound |
| Sync.FileUrl | internal/client/modules/sync/sync.go:99 | the download URL is "/file?name=" followed by the row's name |
| Sync.ParseOrZero | internal/client/modules/sync/sync.go:54-57 | a checkpoint that parses as RFC 3339 gives that instant; one that does not gives the zero time, because the parse error is discarded |
| Sync.Host.constructor | internal/client/modules/sync/sync.go:12-26 | collaborators holding the given local files and checkpoints, with no calls made yet |
| Sync.Host.Exists | internal/client/modules/sync/sync.go:15 | a name exists exactly when its local path is present |
| Sync.Host.Delete | internal/client/modules/sync/sync.go:13 | removes the local path unless the delete fails; the call is logged |
| Sync.Host.GetFileContent | internal/client/modules/sync/sync.go:20 | the stored checkpoint, or ErrFileNotFound when there is none; the call is logged |
| Sync.Host.Save | internal/client/modules/sync/sync.go:19 | stores the checkpoint unless the save fails; the call is logged |
| Sync.Host.Get | internal/client/modules/sync/sync.go:24 | the server's reply to the query; the call is logged and nothing local changes |
| Sync.Host.DownloadFile | internal/client/modules/sync/sync.go:25 | the path exists afterwards unless the download fails; the call is logged |
| Sync.RemoveDeleted | internal/client/modules/sync/sync.go:74-82 | the delete loop's files, calls and error are exactly DeleteAll's, and the checkpoints are untouched |
| Sync.FetchMissing | internal/client/modules/sync/sync.go:95-106 | the download loop's files, calls and error are exactly DownloadAll's, and the checkpoints are untouched |
| Sync.Run | internal/client/modules/sync/sync.go:48-114 | the local files, the checkpoints, the calls made and the error are exactly those of Pass |
| Sync.Reconcile | internal/client/modules/sync/sync.go:74-113 | the rest of Run after the first listing: the delete loop, then the remainder, as Reconciliation describes |
| Sync.DownloadNew | internal/client/modules/sync/sync.go:85-113 | the second query, the download loop and the checkpoint save, as Refresh describes |
| SyncProperties.DeleteAllOnlyRemovesListedExisting | internal/client/modules/sync/sync.go:74-82 | every call of the delete loop deletes a listed name whose file existed; the loop only removes files |
| SyncProperties.DeleteAllSuccess | internal/client/modules/sync/sync.go:74-82 | a delete loop that finishes leaves exactly the files that were not listed |
| SyncProperties.DeleteAllStopsAtFirstFailure | internal/client/modules/sync/sync.go:78-81 | on error, the last call is the failing delete and every earlier one succeeded |
| SyncProperties.DeleteAllSkipsAbsent | internal/client/modules/sync/sync.go:75-77 | when no listed file exists, the delete loop calls nothing and changes nothing |
| SyncProperties.DeleteAllAppend | internal/client/modules/sync/sync.go:74-82 | the delete loop over two lists of rows is the loop over the first. If that finishes, the loop over the second follows, starting from the files the first one left |
| SyncProperties.DeleteAllRemovesEveryPresent | internal/client/modules/sync/sync.go:74-82 | a listed row is reached once every earlier delete has succeeded. If its file is still present then, the very next call deletes it |
| SyncProperties.DownloadAllOnlyFetchesListedMissing | internal/client/modules/sync/sync.go:95-106 | every download fetches "/file?name=" + n into GetPath(n) for a listed name n whose file was missing; the loop only adds files |
| SyncProperties.DownloadAllSuccess | internal/client/modules/sync/sync.go:95-106 | a download loop that finishes leaves every listed file present and adds nothing else |
| SyncProperties.DownloadAllStopsAtFirstFailure | internal/client/modules/sync/sync.go:102-105 | on error, the last call is the failing download and every earlier one succeeded |
| SyncProperties.DownloadAllSkipsPresent | internal/client/modules/sync/sync.go:96-98 | when every listed file exists, the download loop calls nothing and changes nothing |
| SyncProperties.DownloadAllAppend | internal/client/modules/sync/sync.go:95-106 | the download loop over two lists of rows is the loop over the first. If that finishes, the loop over the second follows, starting from the files the first one left |
| SyncProperties.DownloadAllFetchesEveryMissing | internal/client/modules/sync/sync.go:95-106 | a listed row is reached once every earlier download has succeeded. If its file is still missing then, the very next call downloads "/file?name=" + name into its path |
| SyncProperties.DownloadAllOnlyDownloads | internal/client/modules/sync/sync.go:95-106 | the download loop makes no call other than downloads |
| SyncProperties.ConcatInPhaseOrder | internal/client/modules/sync/sync.go:48-114 | calls of early phases followed by calls of later phases keep the phase order |
| SyncProperties.RefreshOrder | internal/client/modules/sync/sync.go:95-111 | after the second query come downloads, then at most one checkpoint save, which is last |
| SyncProperties.ReconciliationOrder | internal/client/modules/sync/sync.go:74-111 | deletions, then the second query with the first one's parameters and deleted=false, then downloads and the save |
| SyncProperties.PassOrder | internal/client/modules/sync/sync.go:48-114 | the checkpoint is read first, then the deleted=true query; all calls follow the order read, query, delete, query, download, save; both queries share one uploaded_at |
| SyncProperties.FirstQueryFailureChangesNothing | internal/client/modules/sync/sync.go:63-72 | if the first query or its decoding fails, the pass returns that error and changes no file or checkpoint |
| SyncProperties.DeleteFailureEndsPass | internal/client/modules/sync/sync.go:78-81 | a failing local delete ends the pass: no second query, no download, no checkpoint |
| SyncProperties.SecondQueryFailureEndsPass | internal/client/modules/sync/sync.go:85-93 | after the deletes succeed, a failing second query (or an undecodable reply) ends the pass with that error: the query is the last call, nothing is downloaded, no checkpoint is saved and the checkpoints are unchanged |
| SyncProperties.DownloadFailureEndsPass | internal/client/modules/sync/sync.go:102-105 | a failing download ends the pass with its error. It is the last call; no checkpoint save is made at all, and the checkpoints are unchanged |
| SyncProperties.CheckpointOnlyAtEnd | internal/client/modules/sync/sync.go:108-113 | the checkpoint is written only as the last call, with now's date; when that save is made the pass returns its error; the pass succeeds exactly when the save is made and succeeds, and then records now's date for the user; otherwise the checkpoints are unchanged |
| SyncProperties.PassSuccess | internal/client/modules/sync/sync.go:74-106 | a successful pass leaves (local files - deleted rows' paths) + new rows' paths |
| SyncProperties.PassWithNothingToDo | internal/client/modules/sync/sync.go:74-111 | when nothing listed needs deleting or downloading, the pass leaves the files alone and only reads, queries twice and saves the checkpoint |
| SyncProperties.CheckpointReparsesAsZeroTime | internal/client/modules/sync/sync.go:54-61 | the checkpoint a pass writes is a bare date, which the next pass fails to parse as RFC 3339, so its window starts at the zero time |
| SyncProperties.SecondPassIsQuiet | internal/client/modules/sync/sync.go:74-106 | after a successful pass, a second pass given the same listings, when no name is listed both as deleted and as new, deletes and downloads nothing and leaves the files as they are |
| SyncProperties.PathsOfHas | internal/client/modules/sync/sync.go:100 | every listed row's local path belongs to the listing's paths |
| Encrypt.Run | internal/client/modules/encrypt/encrypt.go:32-49 | the repository is called once, with (input, output, password), exactly when all three are non-empty, and its error is returned; otherwise the first empty argument, in password, input, output order, gives its message |
| Encrypt.RunSucceedsIff | internal/client/modules/encrypt/encrypt.go:32-49 | the command succeeds exactly when every argument is present and the repository call succeeds |
| Encrypt.EmptyPasswordDecidesAlone | internal/client/modules/encrypt/encrypt.go:33-35 | an empty password decides the outcome whatever the other arguments and the repository |
| Decrypt.Run | internal/client/modules/decrypt/decrypt.go:32-50 | the repository is called once, with (input name, output path, password), exactly when all three are non-empty, and its error is returned; otherwise the first empty argument gives its message |
| Decrypt.RunSucceedsIff | internal/client/modules/decrypt/decrypt.go:32-50 | the command succeeds exactly when every argument is present and the repository call succeeds |
| Decrypt.EmptyPasswordDecidesAlone | internal/client/modules/decrypt/decrypt.go:34-36 | an empty password decides the outcome whatever the other arguments and the repository |
| Card.RemoveSpaces | internal/client/modules/card/card.go:41 | the result has no spaces, and every other character keeps its count |
| Card.RemoveSpacesAppend | internal/client/modules/card/card.go:41 | spaces are removed piecewise over a concatenation |
| Card.RemoveSpacesKeepsSpaceFree | internal/client/modules/card/card.go:41 | a string without spaces is unchanged |
| Card.RemoveSpacesIdempotent | internal/client/modules/card/card.go:41 | removing spaces twice is removing them once |
| Card.FileName | internal/client/modules/card/card.go:41 | the name is "card_", then the number without spaces, then ".json" |
| Card.FileNameSameIff | internal/client/modules/card/card.go:41 | two card numbers share an entry name exactly when they agree once spaces are removed |
| Card.Vault.EncryptFile | internal/client/modules/card/card.go:12-14 | records the call with the input file's content at that moment, and returns the repository's error |
| Card.Run | internal/client/modules/card/card.go:34-61 | a marshal error, or a temporary path that cannot be created, is returned with nothing changed. Otherwise the JSON is written to tempDir/name and the encryption of that file into the entry `name` is requested; the name is returned only on success |
| Delete.Target | internal/client/modules/delete/delete.go:32 | the request is "/delete?name" directly followed by the file name |
| Delete.TargetInjective | internal/client/modules/delete/delete.go:32 | different names give different requests |
| Delete.Remote.Delete | internal/client/modules/delete/delete.go:20-22 | records the request and returns the server's error |
| Delete.Run | internal/client/modules/delete/delete.go:28-45 | the server is always asked first. If it refuses, the local entry is kept and its error returned; otherwise the repository's Delete runs. The empty name removes the vault directory itself, which succeeds only when the vault is empty. Success is equivalent to the server accepting and either the entry existing or the name being empty with an empty vault |
| Login.Server.Post | internal/client/modules/login/login.go:21 | records the post and returns the server's reply |
| Login.Run | internal/client/modules/login/login.go:29-53 | posts the configured credentials to "/login". A post or decode error is returned with the repository unchanged; otherwise the token is saved as the entry named after the user, subject to the Save contract |
| Login.LoginThenRead | internal/client/modules/login/login.go:46-52 | after a successful login, reading the user's entry back gives the decoded token |

## Left out

- The repository's and the token store's read/write locks are left out. The model runs calls one after another.
- FileStore.FileSystemRepository.EncryptFileBar: an input that exists but cannot be opened (the stat succeeds, `os.Open` fails, file_repository.go:215-218) is not modelled; the disk has no set of unreadable files, so such an input is read as if it opened. EncryptFile's `os.Open` of an unreadable input is left out for the same reason.
- The progress bars of EncryptFileBar and DecryptFile (`getBar`, `bar.Add` and its errors) are left out.
- Errors that are not about the model's state are left out:
  - failures of `rand.Reader`;
  - read or write errors of an open file;
  - `aes.NewCipher` and `cipher.NewGCM` failures, which cannot happen with a 32-byte key;
  - `Close` errors.
- File reads are assumed to return whole buffers until end of file, as they do for regular files.
- The nonce is a parameter of the encrypt methods. Randomness is not modelled.
- AES-GCM is abstract, and only the facts in `Chunking.Sound` are used. The model therefore says nothing about tampering or a wrong password. The test's wrong-password case (file_repository_test.go:108-112) is not modelled.
- `filepath.Join` is modelled for already-clean elements. Cleaning `.`, `..` and doubled separators is not modelled.
- FileStore.FileSystemRepository.Save, FileStore.FileSystemRepository.Delete, FileStore.FileSystemRepository.GetFileContent, FileStore.FileSystemRepository.EncryptFile, FileStore.FileSystemRepository.EncryptFileBar, FileStore.FileSystemRepository.DecryptFile: an entry name is treated as one element of the vault directory.
  - A name containing '/' (such as "x/y") is a flat entry in the model. In Go it is a path through sub-directories, so creating it under a missing sub-directory fails there.
  - The empty name, meaning the vault directory itself, is modelled.
- FileStore.FileSystemRepository.Delete: removing the empty vault itself (the empty name on an empty vault) succeeds as in Go. The model's vault then goes on existing, so later calls that would fail on a missing directory are not modelled.
- FileStore.FileSystemRepository.DecryptFile: an input that stats but does not open (for example without read permission) is not modelled.
- `NewFileSystemRepository`'s `MkdirAll` failure is not modelled. The storage directory is assumed to exist.
- A sub-directory of the vault is modelled as empty.
- `Disk` and the vault's `entries` are separate maps. Encrypting a vault entry's own path, or decrypting into one, is not modelled as aliasing.
- FileStore.FileSystemRepository.FindAll: the `os.ReadDir` error and a failing `Info()` are not modelled. The listing order is not stated: ReadDir sorts by name, and the model promises only one File per regular entry with distinct names.
- FileStore.FileSystemRepository.GetFileContent returns the entry's content rather than an open reader. A directory's failure, which Go reports on the first read, is returned at once. The command interfaces declare this method as returning a string.
- FileStore.FileSystemRepository.EncryptFile: the counter-mode loop (file_repository.go:177-196) is unreachable and is not modelled (see Findings).
- JSON is not modelled. `ExtractRows` (sync.go:116-125), `ExtractToken` (login.go:55-62) and `json.Marshal` (card.go:44) are function parameters.
- The HTTP client is not modelled. Each server answer is a function of the request.
- `ExtractUUID` in card.go and delete.go is not part of this model. No core operation calls it.
- The clock is abstract. `time.Now`, `AddDate(-1, 0, 0)`, `Format("2006-01-02")` and `time.Parse(time.RFC3339, ...)` are functions of `Sync.Clock`. Only two facts are used. A formatted date is shorter than 19 characters: it has 10 for years 0 to 9999, and one more per further year digit or minus sign, so years of more than seven digits are not covered. The RFC 3339 layout accepts nothing shorter than 19 characters: every field is fixed-width except the hour, which may have one digit, as in 2006-01-02T1:04:05Z.
- Sync.Run: a failed download or checkpoint save is modelled as changing nothing. A partly written file is not modelled.
- Sync.Host: the file repository, the token repository and the HTTP client of `sync.Run` are one object with one call log. The local vault is a set of paths.
- SyncProperties.PassOrder: calls to `Exists` and `GetPath` (sync.go:75, 96 and 100) are not logged. The ordering lemmas therefore say nothing about when the pass consults them, only that each delete or download depends on the answer.
- Card.Run, Encrypt.Run and Decrypt.Run take the repository as an abstract collaborator, an error function of the call's arguments. The concrete FileStore.FileSystemRepository.EncryptFile always panics (see Findings).
- Card.Run: the temporary JSON file is left on disk after the call, as the source does.
- Card.Run: `os.WriteFile` fails only when it cannot create the file. A write error after the file is created is not modelled.
- Delete.Target: the request is built as "/delete?name" + filename, with no '='. The model follows the code rather than the documented "/delete?name=<filename>".
- MemStore.MemoryRepository: the logger is left out.

## Findings

| source | as written | input that shows it | evidently intended | confidence | as-written member | corrected member |
|---|---|---|---|---|---|---|
| internal/client/infrastructure/filestore/file_repository.go:163-175 | EncryptFile makes the nonce `gcm.NonceSize()` (12) bytes long and passes it to `cipher.NewCTR` as the IV. NewCTR demands an IV of one AES block (16 bytes) and panics otherwise. The call therefore never reaches the encrypt loop: the entry keeps only the 12-byte header, and that header decrypts to an empty file. | any existing input file and any output name that is not a directory | seal the file in 4096-byte GCM chunks after the nonce, as EncryptFileBar does, so that DecryptFile recovers the input | not executed | FileStore.FileSystemRepository.EncryptFile | FileStore.FileSystemRepository.EncryptFileBar |
