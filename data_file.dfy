/** The `DataFile` persistence protocol: a record is loaded from a path,
    a default one is written when the path does not exist yet, and a record
    is saved by replacing the whole file with its encoding. */
module DataFile {
  import opened Comments

  type Path = string

  datatype Result<T, E> = Ok(value: T) | Err(error: E)

  /** The platform error of a failed file-system call. */
  datatype IoError = IoError(message: string)

  /** The diagnostic of a failed encode or decode. */
  datatype SerdeError = SerdeError(message: string)

  /** The three ways a `DataFile` operation fails. */
  datatype DataFileError =
    | Io(io: IoError)
    | NewEmptyFileCreated
    | Serde(serde: SerdeError)

  /** What the record type brings along: its `Default` value and its JSON
      codec (`to_vec_pretty`, which may fail, and `from_str`). */
  datatype Codec<!R> = Codec(
    default: R,
    encode: R -> Result<string, SerdeError>,
    decode: string -> Result<R, SerdeError>)

  // ---------------------------------------------------------------------
  // What the protocol relies on from the codec. These are hypotheses of
  // the lemmas below, not facts the model assumes.

  /** The encoder never writes a line that would be read as a comment. */
  ghost predicate EmitsNoComments<R(!new)>(c: Codec<R>) {
    forall r :: c.encode(r).Ok? ==>
      forall l :: l in Lines(c.encode(r).value) ==> !IsComment(l)
  }

  /** Decoding an encoding gives its line breaks no meaning: joining its
      lines without separator decodes the same. */
  ghost predicate IgnoresLineBreaks<R(!new)>(c: Codec<R>) {
    forall r :: c.encode(r).Ok? ==>
      c.decode(Concat(Lines(c.encode(r).value))) == c.decode(c.encode(r).value)
  }

  /** Decoding inverts encoding. */
  ghost predicate DecodesEncoding<R(!new)>(c: Codec<R>) {
    forall r :: c.encode(r).Ok? ==> c.decode(c.encode(r).value) == Ok(r)
  }

  ghost predicate Lawful<R(!new)>(c: Codec<R>) {
    EmitsNoComments(c) && IgnoresLineBreaks(c) && DecodesEncoding(c)
  }

  // ---------------------------------------------------------------------
  // The pure part of `try_read` on an existing file

  /** Strip comment lines, then decode; a decode failure is a `Serde` error. */
  function Parse<R>(c: Codec<R>, text: string): (res: Result<R, DataFileError>)
    ensures res.Ok? || res.error.Serde?
    ensures res.Ok? <==> c.decode(StripComments(text)).Ok?
    ensures res.Ok? ==> res.value == c.decode(StripComments(text)).value
    ensures res.Err? ==> res.error.serde == c.decode(StripComments(text)).error
  {
    match c.decode(StripComments(text))
    case Ok(v) => Ok(v)
    case Err(e) => Err(Serde(e))
  }

  // ---------------------------------------------------------------------
  // What a write leaves behind

  /** `after` is `before` with `p` holding exactly the encoding `enc`. */
  ghost predicate Saved(before: map<Path, string>, after: map<Path, string>, p: Path,
                        enc: Result<string, SerdeError>)
  {
    enc.Ok? && after == before[p := enc.value]
  }

  /** A write of `enc` to `p` failed with `err`: an encode failure touches
      nothing; an I/O failure either touches nothing (the file could not be
      created) or leaves `p` truncated to a strict prefix of the encoding
      (the write stopped part-way). No other path changes. */
  ghost predicate WriteFailed(before: map<Path, string>, after: map<Path, string>, p: Path,
                              enc: Result<string, SerdeError>, err: DataFileError)
  {
    if enc.Err? then
      err == Serde(enc.error) && after == before
    else
      err.Io? &&
      (after == before ||
       (p in after && after == before[p := after[p]] &&
        |after[p]| < |enc.value| && after[p] == enc.value[..|after[p]|]))
  }

  /** `after` is `before` followed by a prefix of `data`. */
  ghost predicate Appended(before: string, after: string, data: string) {
    |before| <= |after| <= |before| + |data| &&
    after == before + data[..|after| - |before|]
  }

  /** An open file. */
  datatype Handle = Handle(path: Path)

  /** The file system the protocol runs against: a map from paths to the
      text of the files. Every primitive may fail with an I/O error. */
  class FileSystem {
    var files: map<Path, string>

    constructor (initial: map<Path, string>)
      ensures files == initial
    {
      files := initial;
    }

    /** `Path::exists`: the probe reports exactly the paths that hold a file. */
    predicate Exists(p: Path)
      reads this
      ensures Exists(p) <==> p in files
    {
      p in files
    }

    /** `fs::File::open`: fails on a missing file, and may fail otherwise. */
    method Open(p: Path) returns (res: Result<Handle, IoError>)
      ensures res.Ok? ==> p in files && res.value == Handle(p)
      ensures p !in files ==> res.Err?
    {
      var fault: bool := *;
      if p !in files || fault {
        res := Err(IoError("open failed"));
      } else {
        res := Ok(Handle(p));
      }
    }

    /** `read_to_string` on an open file: the whole text, unless the read fails. */
    method ReadToString(h: Handle) returns (res: Result<string, IoError>)
      ensures res.Ok? ==> h.path in files && res.value == files[h.path]
    {
      var fault: bool := *;
      if h.path !in files || fault {
        res := Err(IoError("read failed"));
      } else {
        res := Ok(files[h.path]);
      }
    }

    /** `fs::File::create`: creates the file, or truncates it when it exists. */
    method Create(p: Path) returns (res: Result<Handle, IoError>)
      modifies this
      ensures res.Ok? ==> res.value == Handle(p) && files == old(files)[p := ""]
      ensures res.Err? ==> files == old(files)
    {
      var fault: bool := *;
      if fault {
        res := Err(IoError("create failed"));
      } else {
        files := files[p := ""];
        res := Ok(Handle(p));
      }
    }

    /** `write_all` on an open file: appends `data`; on failure only a strict
        prefix of it got written. */
    method WriteAll(h: Handle, data: string) returns (res: Result<(), IoError>)
      requires h.path in files
      modifies this
      ensures h.path in files && files == old(files)[h.path := files[h.path]]
      ensures Appended(old(files)[h.path], files[h.path], data)
      ensures res.Ok? <==> files[h.path] == old(files)[h.path] + data
    {
      var written: nat :| written <= |data|;
      files := files[h.path := files[h.path] + data[..written]];
      if written == |data| {
        assert data[..written] == data;
        res := Ok(());
      } else {
        res := Err(IoError("write failed"));
      }
    }

    /** `DataFile::try_write`: encode `value` and replace the whole file at
        `to` by the encoding. */
    method TryWrite<R>(c: Codec<R>, value: R, to: Path) returns (res: Result<(), DataFileError>)
      modifies this
      ensures res.Ok? ==> Saved(old(files), files, to, c.encode(value))
      ensures res.Err? ==> WriteFailed(old(files), files, to, c.encode(value), res.error)
    {
      var contents := c.encode(value);
      if contents.Err? {
        return Err(Serde(contents.error));
      }
      var f := Create(to);
      if f.Err? {
        return Err(Io(f.error));
      }
      var w := WriteAll(f.value, contents.value);
      assert [] + contents.value == contents.value;
      if w.Err? {
        return Err(Io(w.error));
      }
      return Ok(());
    }

    /** `DataFile::try_write_new`: write the default record. */
    method TryWriteNew<R>(c: Codec<R>, to: Path) returns (res: Result<(), DataFileError>)
      modifies this
      ensures res.Ok? ==> Saved(old(files), files, to, c.encode(c.default))
      ensures res.Err? ==> WriteFailed(old(files), files, to, c.encode(c.default), res.error)
    {
      res := TryWrite(c, c.default, to);
    }

    /** `DataFile::try_read`. A missing file is first created holding the
        default record; the call then fails with `NewEmptyFileCreated` when
        `failOnNe` is set and returns the default otherwise. An existing file
        is read, stripped of comment lines and decoded, and is not changed. */
    method TryRead<R>(c: Codec<R>, from: Path, failOnNe: bool) returns (res: Result<R, DataFileError>)
      modifies this
      ensures from in old(files) ==> files == old(files)
      ensures from in old(files) ==>
        res == Parse(c, old(files)[from]) || (res.Err? && res.error.Io?)
      ensures from !in old(files) ==>
        (Saved(old(files), files, from, c.encode(c.default)) &&
         res == if failOnNe then Err(NewEmptyFileCreated) else Ok(c.default))
        || (res.Err? && WriteFailed(old(files), files, from, c.encode(c.default), res.error))
    {
      if !Exists(from) {
        var w := TryWriteNew(c, from);
        if w.Err? {
          return Err(w.error);
        }
        if failOnNe {
          return Err(NewEmptyFileCreated);
        } else {
          return Ok(c.default);
        }
      }
      var f := Open(from);
      if f.Err? {
        return Err(Io(f.error));
      }
      var buf := ReadToString(f.value);
      if buf.Err? {
        return Err(Io(buf.error));
      }
      res := Parse(c, buf.value);
    }
  }

  // ---------------------------------------------------------------------
  // Properties of the protocol

  /** What the encoder writes is stripped to the joined lines of it. */
  lemma StripEncoding<R(!new)>(c: Codec<R>, r: R)
    requires EmitsNoComments(c) && c.encode(r).Ok?
    ensures StripComments(c.encode(r).value) == Concat(Lines(c.encode(r).value))
  {
    KeptLinesOfCode(Lines(c.encode(r).value));
  }

  /** Round trip: the text a save writes loads back as the saved record. */
  lemma RoundTrip<R(!new)>(c: Codec<R>, r: R)
    requires Lawful(c) && c.encode(r).Ok?
    ensures Parse(c, c.encode(r).value) == Ok(r)
  {
    StripEncoding(c, r);
  }

  /** Round trip through a file annotated with comment lines at line starts. */
  lemma RoundTripWithComments<R(!new)>(c: Codec<R>, r: R, notes: seq<Note>)
    requires Lawful(c) && c.encode(r).Ok?
    requires ValidNotes(c.encode(r).value, notes)
    ensures Parse(c, Annotate(c.encode(r).value, notes)) == Ok(r)
  {
    StripAnnotated(c.encode(r).value, notes);
    RoundTrip(c, r);
  }

  /** Loading depends on the text only through what the comment filter
      keeps: inserting a comment line at a line start changes nothing. */
  lemma ParseIgnoresNote<R>(c: Codec<R>, text: string, n: Note)
    requires Insertable(text, n)
    ensures Parse(c, InsertNote(text, n)) == Parse(c, text)
  {
    StripIgnoresNote(text, n);
  }

  /** A successful save followed by a load of the same path finds the
      saved record. */
  lemma SavedThenParsed<R(!new)>(c: Codec<R>, before: map<Path, string>, after: map<Path, string>,
                           p: Path, r: R)
    requires Lawful(c) && Saved(before, after, p, c.encode(r))
    ensures p in after && Parse(c, after[p]) == Ok(r)
  {
    RoundTrip(c, r);
  }

  // ---------------------------------------------------------------------
  // Client scenarios, from the file system's point of view

  /** `try_write` then `try_read` on the same path: when the save
      succeeded, the load gives the record back or fails on I/O. */
  method SaveThenLoad<R(!new)>(fs: FileSystem, c: Codec<R>, value: R, p: Path, failOnNe: bool)
    returns (saved: Result<(), DataFileError>, loaded: Result<R, DataFileError>)
    requires Lawful(c)
    modifies fs
    ensures saved.Ok? ==> loaded == Ok(value) || (loaded.Err? && loaded.error.Io?)
  {
    saved := fs.TryWrite(c, value, p);
    loaded := fs.TryRead(c, p, failOnNe);
    if saved.Ok? {
      RoundTrip(c, value);
    }
  }

  /** `try_read` on a missing path: whether it returns the default or
      `NewEmptyFileCreated`, the file it leaves behind loads as the default. */
  method LoadMissing<R(!new)>(fs: FileSystem, c: Codec<R>, p: Path, failOnNe: bool)
    returns (res: Result<R, DataFileError>)
    requires Lawful(c) && p !in fs.files
    modifies fs
    ensures res.Ok? ==> !failOnNe && res.value == c.default
    ensures res.Err? && res.error == NewEmptyFileCreated ==> failOnNe
    ensures res.Ok? || res.error == NewEmptyFileCreated ==>
      p in fs.files && Parse(c, fs.files[p]) == Ok(c.default)
  {
    res := fs.TryRead(c, p, failOnNe);
    if res.Ok? || res.error == NewEmptyFileCreated {
      RoundTrip(c, c.default);
    }
  }

  /** `try_write_new` twice: when both succeed the file holds the default
      encoding once, with nothing accumulated. */
  method WriteNewTwice<R>(fs: FileSystem, c: Codec<R>, p: Path)
    returns (first: Result<(), DataFileError>, second: Result<(), DataFileError>)
    modifies fs
    ensures first.Ok? && second.Ok? ==>
      c.encode(c.default).Ok? && fs.files == old(fs.files)[p := c.encode(c.default).value]
  {
    first := fs.TryWriteNew(c, p);
    second := fs.TryWriteNew(c, p);
  }

  // ---------------------------------------------------------------------
  // The codec hypotheses can be met

  function BoolText(b: bool): string {
    if b then "true" else "false"
  }

  /** A JSON codec for a plain boolean record. */
  function BoolCodec(): Codec<bool> {
    Codec(false,
          b => Ok(BoolText(b)),
          s => if s == "true" then Ok(true)
               else if s == "false" then Ok(false)
               else Err(SerdeError("expected a boolean")))
  }

  lemma BoolCodecLawful()
    ensures Lawful(BoolCodec())
  {
    var c := BoolCodec();
    forall b: bool
      ensures Lines(c.encode(b).value) == [BoolText(b)]
      ensures Concat([BoolText(b)]) == BoolText(b)
    {
      LinesOfSingleLine(BoolText(b));
      assert Concat([BoolText(b)]) == BoolText(b) + Concat([]);
    }
  }
}
