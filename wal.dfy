/**
 * The database's write-ahead log: a writer that appends one frame per
 * mutation to a log file, and a reader that returns the mutations frame by
 * frame until no frame remains.
 *
 * The file system, the framing of bytes on disk and the serialization
 * library are not part of this model: the log file is its sequence of
 * complete frames, and serialization is a pair of function values that are
 * assumed to be inverse wherever that matters.
 */
module WriteAheadLog {
  import opened Wrappers
  import opened ByteStrings

  type Key = string
  type Value = string

  datatype MutationType = PutMutation | DeleteMutation

  datatype Mutation = Mutation(key: Key, value: Option<Value>, kind: MutationType)

  /** A mutation as Put and Delete build it: a Put carries a value, a Delete does not. */
  predicate WellFormed(m: Mutation) {
    match m.kind
    case PutMutation => m.value.Some?
    case DeleteMutation => m.value.None?
  }

  datatype Codec = Codec(serialize: Mutation -> BytesValue, deserialize: BytesValue -> Mutation)

  /** Deserialization undoes serialization. */
  ghost predicate RoundTrips(codec: Codec) {
    forall m :: codec.deserialize(codec.serialize(m)) == m
  }

  /** The frames of a log written with the mutations `muts`, in order. */
  function Encoded(codec: Codec, muts: seq<Mutation>): (frames: seq<BytesValue>)
    ensures |frames| == |muts|
    ensures forall k :: 0 <= k < |muts| ==> frames[k] == codec.serialize(muts[k])
  {
    if muts == [] then [] else [codec.serialize(muts[0])] + Encoded(codec, muts[1..])
  }

  /** The mutations a reader returns for `frames`, in order. */
  function Decoded(codec: Codec, frames: seq<BytesValue>): (muts: seq<Mutation>)
    ensures |muts| == |frames|
    ensures forall k :: 0 <= k < |frames| ==> muts[k] == codec.deserialize(frames[k])
  {
    if frames == [] then [] else [codec.deserialize(frames[0])] + Decoded(codec, frames[1..])
  }

  /** Decoding one more frame appends one more mutation. */
  lemma DecodedSnoc(codec: Codec, frames: seq<BytesValue>, frame: BytesValue)
    ensures Decoded(codec, frames + [frame]) == Decoded(codec, frames) + [codec.deserialize(frame)]
  {
  }

  /** The reader gives back the writer's mutations, in the order written. */
  lemma DecodeEncoded(codec: Codec, muts: seq<Mutation>)
    requires RoundTrips(codec)
    ensures Decoded(codec, Encoded(codec, muts)) == muts
  {
  }

  /** The log file: the complete frames written so far. */
  class LogFile {
    var frames: seq<BytesValue>

    constructor ()
      ensures frames == []
    {
      frames := [];
    }
  }

  class WalWriter {
    const file: LogFile
    const codec: Codec

    constructor (file: LogFile, codec: Codec)
      ensures this.file == file && this.codec == codec
    {
      this.file := file;
      this.codec := codec;
    }

    method Put(key: Key, value: Value)
      modifies file
      ensures file.frames == old(file.frames) + [codec.serialize(Mutation(key, Some(value), PutMutation))]
    {
      Append(Mutation(key, Some(value), PutMutation));
    }

    method Delete(key: Key)
      modifies file
      ensures file.frames == old(file.frames) + [codec.serialize(Mutation(key, None, DeleteMutation))]
    {
      Append(Mutation(key, None, DeleteMutation));
    }

    /** Writes one mutation as exactly one frame; earlier frames stay as they were. */
    method Append(mutation: Mutation)
      modifies file
      ensures file.frames == old(file.frames) + [codec.serialize(mutation)]
    {
      file.frames := file.frames + [codec.serialize(mutation)];
    }
  }

  class WalReader {
    const file: LogFile
    const codec: Codec
    /** The number of frames read so far. */
    var cursor: nat

    constructor (file: LogFile, codec: Codec)
      ensures this.file == file && this.codec == codec && cursor == 0
    {
      this.file := file;
      this.codec := codec;
      cursor := 0;
    }

    /** The next mutation, or None once every frame has been read. */
    method Next() returns (mutation: Option<Mutation>)
      modifies this
      ensures old(cursor) < |file.frames| ==>
                mutation == Some(codec.deserialize(file.frames[old(cursor)])) && cursor == old(cursor) + 1
      ensures old(cursor) >= |file.frames| ==> mutation == None && cursor == old(cursor)
    {
      if cursor >= |file.frames| {
        return None;
      }
      mutation := Some(codec.deserialize(file.frames[cursor]));
      cursor := cursor + 1;
    }
  }

  /**
   * A writer's client issuing one Put or Delete per mutation of `muts`, in
   * order: the log grows by exactly the frames of `muts`.
   */
  method WriteAll(writer: WalWriter, muts: seq<Mutation>)
    requires forall k :: 0 <= k < |muts| ==> WellFormed(muts[k])
    modifies writer.file
    ensures writer.file.frames == old(writer.file.frames) + Encoded(writer.codec, muts)
  {
    for k := 0 to |muts|
      invariant writer.file.frames == old(writer.file.frames) + Encoded(writer.codec, muts[..k])
    {
      var m := muts[k];
      if m.kind == PutMutation {
        writer.Put(m.key, m.value.value);
      } else {
        writer.Delete(m.key);
      }
      assert Encoded(writer.codec, muts[..k + 1]) == Encoded(writer.codec, muts[..k]) + [writer.codec.serialize(m)];
    }
    assert muts[..|muts|] == muts;
  }

  /**
   * Recovery's loop: Next until it returns None. The mutations returned are
   * those of the frames after the reader's cursor, in order, and the cursor
   * ends past the last frame.
   */
  method ReadAll(reader: WalReader) returns (muts: seq<Mutation>)
    modifies reader
    ensures old(reader.cursor) <= |reader.file.frames| ==>
              muts == Decoded(reader.codec, reader.file.frames[old(reader.cursor)..]) && reader.cursor == |reader.file.frames|
    ensures old(reader.cursor) > |reader.file.frames| ==> muts == [] && reader.cursor == old(reader.cursor)
  {
    ghost var frames := reader.file.frames;
    ghost var start := reader.cursor;
    muts := [];
    var next := reader.Next();
    while next.Some?
      invariant reader.file.frames == frames
      invariant next.Some? ==>
        start < reader.cursor <= |frames| && muts + [next.value] == Decoded(reader.codec, frames[start..reader.cursor])
      invariant next.None? && start <= |frames| ==>
        muts == Decoded(reader.codec, frames[start..]) && reader.cursor == |frames|
      invariant next.None? && start > |frames| ==> muts == [] && reader.cursor == start
      decreases |frames| - reader.cursor + (if next.Some? then 1 else 0)
    {
      muts := muts + [next.value];
      var c := reader.cursor;
      next := reader.Next();
      if next.Some? {
        assert frames[start..c + 1] == frames[start..c] + [frames[c]];
        DecodedSnoc(reader.codec, frames[start..c], frames[c]);
      } else {
        assert frames[start..c] == frames[start..];
      }
    }
  }

  /**
   * The log written by WriteAll on an empty file and read back from the
   * start by ReadAll gives back exactly the mutations written.
   */
  method WriteThenReadAll(codec: Codec, muts: seq<Mutation>) returns (read: seq<Mutation>)
    requires RoundTrips(codec)
    requires forall k :: 0 <= k < |muts| ==> WellFormed(muts[k])
    ensures read == muts
  {
    var file := new LogFile();
    var writer := new WalWriter(file, codec);
    WriteAll(writer, muts);
    var reader := new WalReader(file, codec);
    read := ReadAll(reader);
    assert file.frames[0..] == file.frames;
    DecodeEncoded(codec, muts);
  }

  /**
   * A Put then a Delete on an empty log, read back: the reader returns the
   * Put, then the Delete, then nothing.
   */
  method PutDeleteReadBack(codec: Codec, key: Key, value: Value)
    returns (first: Option<Mutation>, second: Option<Mutation>, third: Option<Mutation>)
    requires RoundTrips(codec)
    ensures first == Some(Mutation(key, Some(value), PutMutation))
    ensures second == Some(Mutation(key, None, DeleteMutation))
    ensures third == None
  {
    var file := new LogFile();
    var writer := new WalWriter(file, codec);
    writer.Put(key, value);
    writer.Delete(key);
    var reader := new WalReader(file, codec);
    first := reader.Next();
    second := reader.Next();
    third := reader.Next();
  }
}
