/**
 Downloading a file from an agent in chunks: the server's loop and the agent's range reads.
 */
module Download {
  import opened Json
  import opened Base64

  const CHUNK_MAX: nat := 4 * 1024 * 1024  // the agent's limit for one read
  const CHUNK_SIZE: nat := 3 * 1024 * 1024 // what the server asks for

  // ---- the agent ----

  datatype Reply =
    | Failed
    | Chunk(size: nat, nextOffset: nat, done: bool, content: string)

  /** Where a range read starts and how much it may return, after the clamps. */
  function Start(size: nat, offset: int): (s: nat)
    ensures s <= size
  {
    if offset < 0 then 0 else if offset > size then size else offset
  }

  function Allowed(size: nat, offset: int, limit: int): (n: nat)
    ensures Start(size, offset) + n <= size && n <= CHUNK_MAX
    ensures limit > 0 ==> n <= limit
    ensures n == 0 <==> Start(size, offset) == size
    ensures Start(size, offset) + n == size || n == CHUNK_MAX || n == limit
  {
    var want := if limit <= 0 || limit > CHUNK_MAX then CHUNK_MAX else limit;
    var remain := size - Start(size, offset);
    if want > remain then remain else want
  }

  /** `ctc_file_read_range_json` on a file that opens; `got` is what `fread` returns. */
  method ReadRange(file: seq<Byte>, offset: int, limit: int, got: nat) returns (r: Reply)
    requires got <= Allowed(|file|, offset, limit)
    ensures var s := Start(|file|, offset);
            r == Chunk(|file|, s + got, s + got >= |file|, Encoded(file[s..s + got]))
  {
    var at := offset;
    if at < 0 { at := 0; }
    if at > |file| { at := |file|; }
    var n := limit;
    if n <= 0 || n > CHUNK_MAX { n := CHUNK_MAX; }
    var remain := |file| - at;
    if n > remain { n := remain; }
    assert got <= n;
    var text := EncodeC(file[at..at + got]);
    var next := at + got;
    r := Chunk(|file|, next, next >= |file|, text);
  }

  // ---- the server ----

  /** One answered request: an error on the way, or a read of up to so many bytes. */
  datatype Answer = Lost | Read(atMost: nat)

  function Got(file: seq<Byte>, offset: nat, a: Answer): (n: nat)
    requires a.Read?
    ensures n <= Allowed(|file|, offset, CHUNK_SIZE)
  {
    if a.atMost > Allowed(|file|, offset, CHUNK_SIZE) then Allowed(|file|, offset, CHUNK_SIZE) else a.atMost
  }

  /** The exchange of one chunk, over a connection that may fail. */
  method Request(file: seq<Byte>, offset: nat, a: Answer) returns (r: Reply)
    ensures a.Lost? ==> r == Failed
    ensures a.Read? && offset <= |file| ==>
              var next := offset + Got(file, offset, a);
              r == Chunk(|file|, next, next >= |file|, Encoded(file[offset..next]))
  {
    if a.Lost? { return Failed; }
    r := ReadRange(file, offset, CHUNK_SIZE, Got(file, offset, a));
  }

  /** The first `n` answers are reads of at least one byte. */
  predicate Progressing(answers: nat -> Answer, n: nat) {
    forall i :: 0 <= i < n ==> answers(i).Read? && answers(i).atMost > 0
  }

  /**
   `streamFileDownload` for an unchanged file; `answers(i)` is what the agent will give to the
   i-th request, if it is made.  The loop ends by itself after at most one request per byte
   and one more.  What is written is always the start of the file, and it is the whole file if
   every request that was made read something.
   */
  method Stream(file: seq<Byte>, answers: nat -> Answer) returns (out: seq<Byte>, requests: nat)
    ensures 1 <= requests <= |file| + 1
    ensures out <= file
    ensures Progressing(answers, requests) ==> out == file
  {
    out, requests := [], 1;
    var first := Request(file, 0, answers(0));
    if first.Failed? { return; }
    out := WriteChunk(out, file, 0, first);
    var offset: nat, total := first.nextOffset, first.size;
    assert file[..|file|] == file;
    if first.done { return; }
    while offset < total
      invariant 1 <= requests <= offset + 1 && offset <= total == |file| && out == file[..offset]
      decreases total - offset
    {
      var c := Request(file, offset, answers(requests));
      requests := requests + 1;
      if c.Failed? { return; }
      out := WriteChunk(out, file, offset, c);
      if c.nextOffset <= offset { break; }
      offset := c.nextOffset;
      if c.done { break; }
    }
    assert file[..|file|] == file;
  }

  /** Decode one reply and append it. */
  method WriteChunk(out: seq<Byte>, file: seq<Byte>, offset: nat, c: Reply) returns (r: seq<Byte>)
    requires c.Chunk? && offset <= c.nextOffset <= |file| && out == file[..offset]
    requires c.content == Encoded(file[offset..c.nextOffset])
    ensures r == file[..c.nextOffset]
  {
    RoundTrip(file[offset..c.nextOffset]);
    var raw := DecodeC(c.content);
    r := out + raw.bytes;
    assert file[..offset] + file[offset..c.nextOffset] == file[..c.nextOffset];
  }
}
