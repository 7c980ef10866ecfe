# DataFile: loading and saving a record as a commented JSON file

This project models the `DataFile` persistence protocol of the digidecs
server (`server/src/file/mod.rs`) and proves its properties in Dafny.

A record type that has a `Default` and a JSON codec can be loaded from a
path and saved to a path:

- `try_read(from, fail_on_ne)`: when `from` does not exist, the default
  record is written there first. The call then fails with
  `NewEmptyFileCreated` when `fail_on_ne` is set, and returns the default
  otherwise. When `from` exists, its text is read, every line starting with
  `#` is dropped (as inserted by configuration-management tools), the kept
  lines are concatenated with no separator, and the result is decoded. A
  decode failure is a `Serde` error.
- `try_write_new(to)`: saves the default record.
- `try_write(to)`: encodes the record as pretty JSON, creates or truncates
  the file, and writes the encoding into it. Encoding can fail, because
  `to_vec_pretty` returns a `Result`; that failure is a `Serde` error that
  touches no file.

The project has two modules:

- `Comments` (`comments.dfy`) is the comment filter. `Lines` is Rust's
  `str::lines`: cut at each `\n`, drop a `\r` directly before a `\n`, no
  empty last line after a final `\n`, no lines in empty text. `KeptLines` is
  the `filter`, `Concat` is `collect::<String>()`, and `StripComments`
  composes the three. `Annotate` inserts comment lines at line starts, which
  is what an annotating tool does to a file.
- `DataFile` (`data_file.dfy`) holds the error enum `DataFileError`
  (`server/src/file/mod.rs:13-21`: `Io`, `NewEmptyFileCreated`, `Serde`),
  the record's
  capabilities as a `Codec<R>` value (`default`, `encode`, `decode`) and the
  `FileSystem` class. The class holds the files as a `map<Path, string>`.
  Its primitive operations (`Open`, `ReadToString`, `Create`, `WriteAll`)
  may each fail with an I/O error, chosen nondeterministically. `Exists` is
  `Path::exists` (`server/src/file/mod.rs:27`): membership in the map. `TryRead`,
  `TryWriteNew` and `TryWrite` are built from them step by step, as in the
  source.

The JSON library is not modelled. What the protocol needs from it is stated
as the predicate `Lawful(c)`, a hypothesis of the round-trip lemmas:

- `EmitsNoComments`: no line of an encoding starts with `#`.
- `IgnoresLineBreaks`: an encoding decodes the same after its lines are
  joined without separator (true of pretty-printed JSON).
- `DecodesEncoding`: decoding an encoding gives the record back.

`BoolCodecLawful` shows that these hypotheses can all hold at once, using a
codec for a boolean record.

## Model

| member | source | states |
|---|---|---|
| Comments.NewlineIndex | server/src/file/mod.rs:43 | the index is the first `\n` of the text, or its length exactly when it has no `\n` |
| Comments.TrimCarriageReturn | server/src/file/mod.rs:43 | a line loses one final `\r` and nothing else |
| Comments.Lines | server/src/file/mod.rs:43 | empty text, and only empty text, has no lines |
| Comments.LinesHaveNoLineFeed | server/src/file/mod.rs:43 | no line that `Lines` yields holds a `\n` |
| Comments.IsComment | server/src/file/mod.rs:44 | a line is a comment exactly when `#` is a prefix of it, as `starts_with("#")` tests |
| Comments.Concat | server/src/file/mod.rs:45 | `collect::<String>()`: the first line is a prefix of the result, and the result is empty exactly when every line is empty |
| Comments.KeptLines | server/src/file/mod.rs:44 | the kept lines are exactly the lines of the input that do not start with `#` |
| Comments.StripComments | server/src/file/mod.rs:42-45 | the stripped text has no `\n` and does not start with `#` |
| Comments.ConcatOfCodeLines | server/src/file/mod.rs:45 | joining lines free of `\n` and of comments gives text free of both |
| Comments.ConcatAppend | server/src/file/mod.rs:45 | collecting lines distributes over appending sequences of lines |
| Comments.KeptLinesAppend | server/src/file/mod.rs:44 | the filter distributes over appending, so it keeps the original order |
| Comments.KeptLinesOfCode | server/src/file/mod.rs:44 | the filter keeps a sequence with no comment line unchanged |
| Comments.NewlineIndexAppend | server/src/file/mod.rs:43 | appending text does not move a first `\n` that already exists |
| Comments.NewlineIndexAfter | server/src/file/mod.rs:43 | after a prefix with no `\n`, the first `\n` is the first one of the rest |
| Comments.LinesAppend | server/src/file/mod.rs:43 | text that ends at a line boundary splits into lines independently of what follows |
| Comments.LinesOfSingleLine | server/src/file/mod.rs:43 | text without `\n` is one line, or none when empty, with a lone final `\r` kept |
| Comments.LinesOfTerminatedLine | server/src/file/mod.rs:43 | a line followed by `\n` is one line, without the `\r` of a `\r\n` ending |
| Comments.TrimKeepsCommentness | server/src/file/mod.rs:43-44 | dropping the `\r` of a `\r\n` ending never changes whether a line is a comment |
| Comments.LinesOfUnlines | server/src/file/mod.rs:43 | splitting lines that were each followed by `\n` gives the lines back |
| Comments.StripUnlines | server/src/file/mod.rs:42-45 | stripped text is exactly the concatenation, in order, of the lines not starting with `#` |
| Comments.StripAppend | server/src/file/mod.rs:42-45 | text that ends at a line boundary is stripped independently of what follows |
| Comments.StripSingleLine | server/src/file/mod.rs:42-45 | one line is dropped when it starts with `#` and is kept whole otherwise |
| Comments.StripTerminatedLine | server/src/file/mod.rs:42-45 | a line ended by `\n` is dropped when it starts with `#` and is kept without its line ending otherwise |
| Comments.HashInsideLineKept | server/src/file/mod.rs:44 | a `#` that is not the first character of its line is kept |
| Comments.StripIdempotent | server/src/file/mod.rs:42-45 | stripping stripped text changes nothing |
| Comments.StripIgnoresNote | server/src/file/mod.rs:42-45 | inserting one comment line at a line start does not change the stripped text |
| Comments.StripAnnotated | server/src/file/mod.rs:42-45 | inserting any number of comment lines at line starts does not change the stripped text |
| DataFile.Parse | server/src/file/mod.rs:42-47 | decoding the stripped text either succeeds or fails with `Serde` carrying the decoder's diagnostic, never with `Io` |
| DataFile.FileSystem.Open | server/src/file/mod.rs:37 | opening succeeds only on an existing file and fails on a missing one |
| DataFile.FileSystem.ReadToString | server/src/file/mod.rs:38-39 | a successful read gives the whole text of the file |
| DataFile.FileSystem.Create | server/src/file/mod.rs:57 | creation leaves the file empty and touches nothing else; a failure touches nothing |
| DataFile.FileSystem.WriteAll | server/src/file/mod.rs:58 | writing appends the data, or only a strict prefix of it on failure, to that file alone |
| DataFile.FileSystem.TryWrite | server/src/file/mod.rs:54-61 | success: the file holds exactly the encoding, with nothing appended or merged and no other path changed; an encode failure is `Serde` and touches nothing; an I/O failure leaves the file unchanged or truncated to a prefix of the encoding |
| DataFile.FileSystem.TryWriteNew | server/src/file/mod.rs:50-52 | the same as `TryWrite` of the default record |
| DataFile.FileSystem.TryRead | server/src/file/mod.rs:24-48 | existing path: files unchanged, and the result is the stripped-and-decoded text or an `Io` error; missing path: the default encoding is saved, then `NewEmptyFileCreated` if `failOnNe` else `Ok(default)`; otherwise the write's error, with the write's failure state |
| DataFile.StripEncoding | server/src/file/mod.rs:42-45 | the filter reduces an encoding to its lines joined without separator |
| DataFile.RoundTrip | server/src/file/mod.rs:24-61 | under the codec laws, the text a save writes loads back as the saved record |
| DataFile.RoundTripWithComments | server/src/file/mod.rs:41-47 | an encoding annotated with comment lines at line starts still loads as the encoded record |
| DataFile.ParseIgnoresNote | server/src/file/mod.rs:41-47 | inserting a comment line at a line start never changes the load result |
| DataFile.SavedThenParsed | server/src/file/mod.rs:24-61 | after a successful save of a record the path exists and loads as that record |
| DataFile.SaveThenLoad | server/src/file/mod.rs:24-61 | `try_write` then `try_read`: when the save succeeds, the load returns the record for either flag, or an `Io` error |
| DataFile.LoadMissing | server/src/file/mod.rs:27-34 | on a missing path, `Ok` means the flag was off and the value is the default; `NewEmptyFileCreated` means the flag was on; either way the file left behind loads as the default |
| DataFile.WriteNewTwice | server/src/file/mod.rs:50-52 | two successful `try_write_new` calls leave the file holding the default encoding once, and no other path changed |

## Left out

- Asynchrony: each tokio call (`open`, `read_to_string`, `create`, `write_all`) is one atomic step on the file map.
- WriteAll: its `Ok` means every byte is in the file. tokio does not promise that: `write_all` on a tokio `File` returns once the last bytes are handed to a background write. `try_write` (`server/src/file/mod.rs:57-60`) drops the file without `flush`, so an error in that last write is never reported, and a read right after the save can run before the write lands. The model does not capture either case.
- TryWrite: its `Ok` implies `Saved`, which rests on the `WriteAll` promise above. So do `SavedThenParsed`, `SaveThenLoad` and `RoundTrip` as statements about the file on disk. Without a flush, the source guarantees them only once the background write has completed without error.
- Concurrency: the window between the `exists` test and the `open` is not modelled, and neither are concurrent writers.
- `Path::exists` errors: in Rust it returns `false` when the existence probe itself fails. Here `Exists` is membership in the map.
- The JSON codec: `encode` and `decode` are function values of `Codec<R>`. Their properties are the hypotheses of `Lawful`, not proved facts.
- Default: `Self::default()` is called at `server/src/file/mod.rs:51` for the record that `try_write_new` saves, and again at `server/src/file/mod.rs:33` for the record that `try_read` returns. The model has one value, `Codec.default`, so it takes both calls to give the same record and `to_vec_pretty` to encode that record the same way each time. `TryRead`'s `Ok(c.default)`, `LoadMissing` and `WriteNewTwice` rest on this; Rust's `Default` does not promise it.
- Bytes and UTF-8: files hold `string`, and the encoding is not written as bytes. A `read_to_string` failure on invalid UTF-8 is one of the nondeterministic `Io` failures of `ReadToString`.
- Error payloads: `IoError` and `SerdeError` carry a message, not the platform error or the JSON diagnostic. The human-readable `#[error(...)]` texts are not modelled.
- `Lines` follows the current definition of Rust's `str::lines`: a lone `\r` at the very end of the text, with no `\n` after it, stays in the last line. Older Rust toolchains dropped it. The model does not cover that older behaviour.
- The `config` submodule (`server/src/file/mod.rs:9-11`) is not part of this model.
