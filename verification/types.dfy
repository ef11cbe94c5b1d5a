/**
 Shared vocabulary of the snapshot-distribution tool: byte strings, opaque
 identifiers, the entry and tombstone records of a patch, the two staged
 document shapes (`PatchFile`, `BaseFile`), the error taxonomy, and the
 foreign primitives (SHA-256, MD5, zlib) the tool calls into.
 */
module Types {
  import opened Wrappers

  newtype Byte = x: int | 0 <= x < 256
  type Bytes = seq<Byte>

  /** A relative path as its list of components: `filepath.Join(sub, name)` is `sub + [name]`. */
  type Path = seq<string>

  /** A hex digest string. */
  type Hash = string

  /** A UUID; the all-zero UUID `uuid.Nil` is the root sentinel. */
  type Id = nat
  const Nil: Id := 0

  /** One tracked file of a patch (`BaseEntry` in patchcreation.go). */
  datatype Entry = Entry(fileName: Path, hash: Hash, additionalChunks: nat)

  /** One tracked file of main.go's format: its MD5 and its content inline. */
  datatype LegacyEntry = LegacyEntry(fileName: Path, md5: Hash, content: Bytes)

  /** A removed path (`DeletedEntry`). */
  datatype Tombstone = Tombstone(fileName: Path)

  /** A chain entry: new and changed files plus deletions relative to `baseId`. */
  datatype PatchFile<E> = PatchFile(version: int, id: Id, baseId: Id, changed: seq<E>, deleted: seq<Tombstone>)

  /** The root document of the older revisions: every file of the snapshot. */
  datatype BaseFile<E> = BaseFile(version: int, id: Id, entries: seq<E>)

  /**
   A staged or uploaded JSON document, holding every field either document
   shape writes. Decoding it into a `PatchFile` or a `BaseFile` keeps the
   fields that struct declares and leaves the others at their zero value,
   as `json.Unmarshal` does.
   */
  datatype Document<E> = Document(version: int, id: Id, baseId: Id, entries: seq<E>, changed: seq<E>, deleted: seq<Tombstone>)

  function PatchView<E>(d: Document<E>): PatchFile<E> {
    PatchFile(d.version, d.id, d.baseId, d.changed, d.deleted)
  }

  function BaseView<E>(d: Document<E>): BaseFile<E> {
    BaseFile(d.version, d.id, d.entries)
  }

  /** Serialising a patch file: decoding it back as a patch file is lossless. */
  function PatchDocument<E>(p: PatchFile<E>): (d: Document<E>)
    ensures PatchView(d) == p
    ensures BaseView(d) == BaseFile(p.version, p.id, [])
  {
    Document(p.version, p.id, p.baseId, [], p.changed, p.deleted)
  }

  /** Serialising a base file: decoded as a patch file it has no changes and a zero `BaseID`. */
  function BaseDocument<E>(b: BaseFile<E>): (d: Document<E>)
    ensures BaseView(d) == b
    ensures PatchView(d) == PatchFile(b.version, b.id, Nil, [], [])
  {
    Document(b.version, b.id, Nil, b.entries, [], [])
  }

  datatype Error =
    | NoChanges                          // "no changes"
    | NoEntries                          // "no entries - folder empty?"
    | TooManyChunks(path: Path)          // "too many chunks"
    | InvalidChunkSize(size: int)        // the source divides by it or slices with it
    | NotADirectory(path: Path)          // ReadDir of a file, or stat through a file
    | IsADirectory(path: Path)           // ReadFile (or md5sum) of a directory
    | NotFound(name: string)             // DownloadFile of a missing object
    | DocumentNotFound(id: Id)           // DownloadFile of "<id>.json"
    | DecompressFailed(path: Path)       // "decompress ..."
    | ConsistencyViolation(path: Path)   // checksum different after restore
    | PatchNotFound(id: Id)              // log.Fatal("Patch not found")
    | ChainCycle(head: Id)               // the chain walk never reaches uuid.Nil
    | DatabaseNotFound                   // "patch database not found"
    | DatabaseUnreadable                 // any other failure to download or decode db.json
    | TagNotFound(name: string)
    | InconsistentDatabase(name: string) // tag present, entry missing
    | WrongVersion(version: int)
    | InvalidTagName(name: string)
    | InvalidStagedId(staged: string)    // "Not a valid patch identifier"
    | StagedFileMissing(name: string)
    | DuplicateEntry(id: Id)             // "Entry already exists"
    | UploadFailed(name: string)
    | UnknownBackend(name: string)
    | BackendUnavailable                 // SFTP connection failure

  /**
   The foreign calls, as total functions:
   - `sha256Hex`, `md5Hex`: hex-encoded digests of raw bytes;
   - `deflateFlushed`: the zlib stream after `Write` and `Flush`, before the deferred `Close`;
   - `deflateUnflushed`: what the zlib writer has emitted after `Write` alone;
   - `inflate`: `io.Copy` from a zlib reader: the bytes it produced, and
     whether it ended cleanly or with the tolerated `io.ErrUnexpectedEOF` (a
     stream without its trailer) rather than any other error.
   */
  datatype Primitives = Primitives(
    sha256Hex: Bytes -> Hash,
    md5Hex: Bytes -> Hash,
    deflateFlushed: Bytes -> Bytes,
    deflateUnflushed: Bytes -> Bytes,
    inflate: Bytes -> Inflated)

  datatype Inflated = Inflated(output: Bytes, ok: bool)

  /** Inflating a flushed stream gives back the input. */
  ghost predicate Sound(p: Primitives) {
    forall x :: p.inflate(p.deflateFlushed(x)) == Inflated(x, true)
  }

  /** A SHA-256 hex digest has 64 characters, so it is never the empty string. */
  ghost predicate HexDigests(p: Primitives) {
    forall x :: |p.sha256Hex(x)| == 64
  }
}
