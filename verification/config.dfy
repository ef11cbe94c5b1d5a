/**
 Configuration: the chunk size in MiB with its byte conversion, the defaults
 of `NewConfig`, and the choice of storage backend from its configured name.
 */
module Configuration {
  import opened Wrappers
  import opened Types

  const DefaultChunkSizeMb: int := 50
  const MiB: int := 1024 * 1024

  /** The backends `readConfig` can construct. */
  datatype BackendKind = Sftp | Local | Http

  datatype Config<B> = Config(backend: B, chunkSizeMb: int)

  const Int64Modulus: int := 0x1_0000_0000_0000_0000
  const Int64Max: int := 0x7FFF_FFFF_FFFF_FFFF

  /** Two's-complement wrap of an integer into Go's 64-bit `int`. */
  function Wrap64(x: int): (r: int)
    ensures -Int64Max - 1 <= r <= Int64Max
    ensures (r - x) % Int64Modulus == 0
  {
    (x + Int64Max + 1) % Int64Modulus - Int64Max - 1
  }

  /** `ChunkSize()`: MiB to bytes, in 64-bit arithmetic. */
  function ChunkSize<B>(cfg: Config<B>): int {
    Wrap64(cfg.chunkSizeMb * MiB)
  }

  /** Without overflow the chunk size is the plain unit conversion. */
  lemma ChunkSizeIsMiB<B>(cfg: Config<B>)
    requires -0x800_0000_0000 <= cfg.chunkSizeMb < 0x800_0000_0000
    ensures ChunkSize(cfg) == cfg.chunkSizeMb * 1024 * 1024
    ensures cfg.chunkSizeMb > 0 ==> ChunkSize(cfg) > 0
  {
  }

  /** `NewConfig` keeps the backend and defaults the chunk size to 50 MiB. */
  function NewConfig<B>(backend: B): (cfg: Config<B>)
    ensures cfg.backend == backend
    ensures ChunkSize(cfg) == 52_428_800
  {
    Config(backend, DefaultChunkSizeMb)
  }

  /** Settings read from the configuration file. */
  datatype Settings = Settings(backend: string, chunkSizeMb: int)

  function AsciiUpper(c: char): char {
    if 'a' <= c <= 'z' then (c as int - 32) as char else c
  }

  function AsciiLower(c: char): char {
    if 'A' <= c <= 'Z' then (c as int + 32) as char else c
  }

  /**
   Whether `c` case-folds to the lower-case ASCII letter `t` under Unicode
   simple folding: `t` itself, its upper case, or the two non-ASCII members
   of a Latin orbit (LATIN SMALL LETTER LONG S folds to s, KELVIN SIGN to k).
   */
  predicate FoldsTo(c: char, t: char) {
    c == t || c == AsciiUpper(t)
    || (t == 's' && c == '\U{17F}')
    || (t == 'k' && c == '\U{212A}')
  }

  /** `strings.EqualFold(s, target)` for a lower-case ASCII `target`. */
  predicate EqualFold(s: string, target: string) {
    |s| == |target| && forall i :: 0 <= i < |s| ==> FoldsTo(s[i], target[i])
  }

  /** Backend selection in `readConfig`: sftp, local, http, else an error. */
  function ClassifyBackend(name: string): (r: Result<BackendKind, Error>)
    ensures r == Ok(Sftp) <==> EqualFold(name, "sftp")
    ensures r == Ok(Local) <==> EqualFold(name, "local")
    ensures r == Ok(Http) <==> EqualFold(name, "http")
    ensures r.Err? ==> r.error == UnknownBackend(name)
  {
    if EqualFold(name, "sftp") then
      assert FoldsTo(name[0], 's');
      Ok(Sftp)
    else if EqualFold(name, "local") then Ok(Local)
    else if EqualFold(name, "http") then Ok(Http)
    else Err(UnknownBackend(name))
  }

  /** Unicode folding reaches beyond ASCII: the long s selects SFTP too. */
  lemma ClassifyExamples()
    ensures ClassifyBackend("SFTP") == Ok(Sftp)
    ensures ClassifyBackend("\U{17F}ftp") == Ok(Sftp)
    ensures ClassifyBackend("Local") == Ok(Local)
    ensures ClassifyBackend("s3") == Err(UnknownBackend("s3"))
  {
    assert EqualFold("SFTP", "sftp");
    assert EqualFold("\U{17F}ftp", "sftp");
    assert EqualFold("Local", "local");
  }

  function LowerAscii(s: string): (r: string)
    ensures |r| == |s|
    ensures forall i :: 0 <= i < |s| ==> r[i] == AsciiLower(s[i])
  {
    seq(|s|, i requires 0 <= i < |s| => AsciiLower(s[i]))
  }

  lemma FoldsToLower(c: char, t: char)
    requires 'a' <= t <= 'z'
    ensures FoldsTo(c, t) <==> FoldsTo(AsciiLower(c), t)
  {
  }

  lemma EqualFoldLower(name: string, target: string)
    requires forall i :: 0 <= i < |target| ==> 'a' <= target[i] <= 'z'
    ensures EqualFold(name, target) <==> EqualFold(LowerAscii(name), target)
  {
    var low := LowerAscii(name);
    if |name| == |target| {
      forall i | 0 <= i < |name|
        ensures FoldsTo(name[i], target[i]) <==> FoldsTo(low[i], target[i])
      {
        FoldsToLower(name[i], target[i]);
      }
    }
  }

  /** The backend choice ignores ASCII letter case. */
  lemma ClassifyIgnoresCase(name: string)
    ensures ClassifyBackend(name).Ok? <==> ClassifyBackend(LowerAscii(name)).Ok?
    ensures ClassifyBackend(name).Ok? ==> ClassifyBackend(name) == ClassifyBackend(LowerAscii(name))
  {
    EqualFoldLower(name, "sftp");
    EqualFoldLower(name, "local");
    EqualFoldLower(name, "http");
  }

  /**
   `readConfig` after the file is parsed: the named backend, the configured
   chunk size replacing the default. `sftpConnects` is the outcome of dialling
   the SFTP server.
   */
  function ReadConfig(settings: Settings, sftpConnects: bool): (r: Result<Config<BackendKind>, Error>)
    ensures r.Ok? ==> r.value.chunkSizeMb == settings.chunkSizeMb
    ensures r.Ok? ==> ClassifyBackend(settings.backend) == Ok(r.value.backend)
    ensures ClassifyBackend(settings.backend).Err? ==> r == Err(UnknownBackend(settings.backend))
    ensures ClassifyBackend(settings.backend) == Ok(Sftp) && !sftpConnects ==> r == Err(BackendUnavailable)
    ensures ClassifyBackend(settings.backend).Ok? && (sftpConnects || ClassifyBackend(settings.backend) != Ok(Sftp)) ==> r.Ok?
  {
    var kind :- ClassifyBackend(settings.backend);
    if kind == Sftp && !sftpConnects then Err(BackendUnavailable)
    else Ok(NewConfig(kind).(chunkSizeMb := settings.chunkSizeMb))
  }
}
