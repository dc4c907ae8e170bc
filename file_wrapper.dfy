/**
  `FileWrapper`: a read-only file whose `read` rewinds to the initial position
  once the file is exhausted (or when asked for the whole file), so that the
  same object can be sent again after an authentication round trip, and which
  reports progress to an optional callback.

  The file is its content, a character sequence; the position is a field.
  The percentage is `int(float(size) / file_size * 100)` in the source; only
  its exact cases (an empty file, a zero size and a whole-file size) are
  defined here, every other value comes from the uninterpreted `approxPercent`.
*/
module FileWrapper {

  /** What one `read` yields: the data, the position after it, and the percentage computed. */
  datatype ReadResult = ReadResult(data: string, pos: nat, percent: int)

  /** `callback_size == 0` becomes 1, so the modulus is never zero. */
  function CallbackPercent(callbackSize: int): (p: int)
    ensures p != 0
    ensures callbackSize != 0 ==> p == callbackSize
    ensures callbackSize == 0 ==> p == 1
  {
    if callbackSize == 0 then 1 else callbackSize
  }

  /** A set `force_size` (any non-zero value) replaces the requested size. */
  function EffectiveSize(forceSize: int, size: int): (n: int)
    ensures forceSize != 0 ==> n == forceSize
    ensures forceSize == 0 ==> n == size
  {
    if forceSize != 0 then forceSize else size
  }

  /** The underlying `file.read(size)` from `pos`: a negative size reads to the end. */
  function Chunk(content: string, pos: nat, size: int): (data: string)
    requires pos <= |content|
    ensures pos + |data| <= |content| && data == content[pos..pos + |data|]
    ensures 0 <= size && pos + size <= |content| ==> |data| == size
    ensures (size < 0 || pos + size > |content|) ==> |data| == |content| - pos
  {
    if size < 0 || pos + size > |content| then content[pos..] else content[pos..pos + size]
  }

  /** The progress percentage for `size` bytes of a `fileSize`-byte file. */
  function Percent(size: int, fileSize: nat, approxPercent: (int, int) -> int): (p: int)
    ensures fileSize == 0 || size == 0 ==> p == 0
    ensures fileSize != 0 && size == fileSize ==> p == 100
  {
    if fileSize == 0 then 0
    else if size == 0 then 0
    else if size == fileSize then 100
    else approxPercent(size, fileSize)
  }

  /** One `read(size)` from `pos`. */
  function ReadStep(content: string, initialPos: nat, forceSize: int, approxPercent: (int, int) -> int,
                    pos: nat, size: int): (r: ReadResult)
    requires pos <= |content|
    ensures r.pos == initialPos || (r.pos == pos + |r.data| && r.data != [] && r.pos <= |content|)
  {
    var n := EffectiveSize(forceSize, size);
    var data := Chunk(content, pos, n);
    var next := if data == [] || n < 0 || n >= |content| then initialPos else pos + |data|;
    ReadResult(data, next, Percent(if n == -1 then |data| else n, |content|, approxPercent))
  }

  /** The callback runs only when there is one and the percentage is a multiple of the step. */
  predicate Fires(hasCallback: bool, callbackPercent: int, percent: int)
    requires callbackPercent != 0
  {
    hasCallback && percent % callbackPercent == 0
  }

  class FileWrapper {
    const content: string
    /** `force_size`; 0 stands for `False`. */
    const forceSize: int
    /** Whether a callback was given. */
    const hasCallback: bool
    const callbackPercent: int
    /** The position at opening, where every rewind returns. */
    const initialReadPos: nat
    const fileSize: nat
    const approxPercent: (int, int) -> int
    /** The file position. */
    var pos: nat
    /** The percentages passed to the callback, oldest first. */
    var reported: seq<int>

    predicate Valid()
      reads this
    {
      fileSize == |content| && initialReadPos <= |content| && pos <= |content| && callbackPercent != 0
    }

    /** Opens `content` at position 0 and normalises the callback step. */
    constructor (content: string, forceSize: int, hasCallback: bool, callbackSize: int,
                 approxPercent: (int, int) -> int)
      ensures Valid()
      ensures this.content == content && this.forceSize == forceSize && this.hasCallback == hasCallback
      ensures callbackPercent == CallbackPercent(callbackSize) && this.approxPercent == approxPercent
      ensures initialReadPos == 0 && pos == 0 && fileSize == |content| && reported == []
    {
      this.content := content;
      this.forceSize := forceSize;
      this.hasCallback := hasCallback;
      this.approxPercent := approxPercent;
      var step := callbackSize;
      if step == 0 {
        step := 1;
      }
      callbackPercent := step;
      pos := 0;
      initialReadPos := 0;
      fileSize := |content|;
      reported := [];
    }

    /** `read(size)`; `size == -1` is the default "whole file". */
    method Read(size: int) returns (data: string)
      requires Valid()
      modifies this`pos, this`reported
      ensures Valid()
      ensures var r := ReadStep(content, initialReadPos, forceSize, approxPercent, old(pos), size);
              data == r.data && pos == r.pos &&
              reported == old(reported) + (if Fires(hasCallback, callbackPercent, r.percent) then [r.percent] else [])
    {
      var n := size;
      if forceSize != 0 {
        n := forceSize;
      }
      if n < 0 || pos + n > |content| {
        data := content[pos..];
      } else {
        data := content[pos..pos + n];
      }
      if data == [] || n < 0 || n >= fileSize {
        pos := initialReadPos;
      } else {
        pos := pos + |data|;
      }
      var percent;
      if n == -1 {
        n := |data|;
      }
      if fileSize == 0 {
        percent := 0;
      } else if n == 0 {
        percent := 0;
      } else if n == fileSize {
        percent := 100;
      } else {
        percent := approxPercent(n, fileSize);
      }
      if hasCallback && percent % callbackPercent == 0 {
        reported := reported + [percent];
      }
    }
  }

  // ---------------------------------------------------------------------------
  // Properties

  /** A read returns the content from the position on, cut to the effective size. */
  lemma ReadIsSliceFromPosition(content: string, initialPos: nat, forceSize: int, approxPercent: (int, int) -> int,
                                pos: nat, size: int)
    requires pos <= |content|
    ensures var r := ReadStep(content, initialPos, forceSize, approxPercent, pos, size);
            var n := EffectiveSize(forceSize, size);
            pos + |r.data| <= |content| && r.data == content[pos..pos + |r.data|] &&
            (n < 0 ==> |r.data| == |content| - pos) &&
            (n >= 0 ==> |r.data| == if pos + n > |content| then |content| - pos else n)
  {
  }

  /** With `force_size` set the requested size makes no difference at all. */
  lemma ForcedSizeIgnoresRequest(content: string, initialPos: nat, forceSize: int, approxPercent: (int, int) -> int,
                                 pos: nat, size1: int, size2: int)
    requires pos <= |content|
    requires forceSize != 0
    ensures ReadStep(content, initialPos, forceSize, approxPercent, pos, size1) ==
            ReadStep(content, initialPos, forceSize, approxPercent, pos, size2)
  {
  }

  /** A read of `0 <= size < file_size` that returns data moves past that data; an empty
      read, a negative size or a size of at least the file size rewinds. */
  lemma RewindOrAdvance(content: string, initialPos: nat, forceSize: int, approxPercent: (int, int) -> int,
                        pos: nat, size: int)
    requires pos <= |content|
    ensures var r := ReadStep(content, initialPos, forceSize, approxPercent, pos, size);
            var n := EffectiveSize(forceSize, size);
            (0 <= n < |content| && r.data != [] ==> r.pos == pos + |r.data| && pos < r.pos <= |content|) &&
            (r.data == [] || n < 0 || n >= |content| ==> r.pos == initialPos)
  {
  }

  /** Reading the whole file from the initial position leaves the state as it was, so the
      same data comes back every time and, for a non-empty file, such reads never return the
      empty data that signals the end of the file. */
  lemma WholeFileReadRepeats(content: string, forceSize: int, approxPercent: (int, int) -> int, size: int)
    requires var n := EffectiveSize(forceSize, size); n < 0 || n >= |content|
    ensures var r := ReadStep(content, 0, forceSize, approxPercent, 0, size);
            r.data == content && r.pos == 0 &&
            ReadStep(content, 0, forceSize, approxPercent, r.pos, size) == r &&
            (content != "" ==> r.data != "")
  {
    assert content[0..] == content;
    assert content[0..|content|] == content;
  }

  /** An empty file reads as nothing, stays at the start and reports 0 percent. */
  lemma EmptyFile(initialPos: nat, forceSize: int, approxPercent: (int, int) -> int, size: int)
    requires initialPos == 0
    ensures ReadStep("", initialPos, forceSize, approxPercent, 0, size) == ReadResult("", 0, 0)
  {
  }

  /** A default `read()` of a non-empty file from the start reports 100 percent, so the
      callback fires for every step that divides 100. */
  lemma WholeReadReportsHundred(content: string, initialPos: nat, approxPercent: (int, int) -> int,
                                callbackSize: int)
    requires |content| > 0
    ensures ReadStep(content, initialPos, 0, approxPercent, 0, -1).percent == 100
    ensures 100 % CallbackPercent(callbackSize) == 0 ==>
              Fires(true, CallbackPercent(callbackSize), ReadStep(content, initialPos, 0, approxPercent, 0, -1).percent)
  {
    assert content[0..] == content;
  }

  // ---------------------------------------------------------------------------
  // Reading a file in blocks until an empty read, as an HTTP sender does

  function Concat(chunks: seq<string>): string {
    if chunks == [] then "" else chunks[0] + Concat(chunks[1..])
  }

  /** The blocks that successive reads of `size` bytes return from `pos` up to the empty read. */
  function Drain(content: string, initialPos: nat, size: nat, pos: nat): seq<string>
    requires 0 < size < |content|
    requires pos <= |content|
    decreases |content| - pos
  {
    var r := ReadStep(content, initialPos, 0, (_, _) => 0, pos, size);
    if r.data == [] then [] else [r.data] + Drain(content, initialPos, size, r.pos)
  }

  /** Block reads smaller than the file return exactly the rest of the file, each block
      non-empty, and the empty read that ends them rewinds for the next send. */
  lemma {:induction false} DrainReadsRest(content: string, initialPos: nat, size: nat, pos: nat)
    requires 0 < size < |content|
    requires pos <= |content|
    ensures Concat(Drain(content, initialPos, size, pos)) == content[pos..]
    ensures forall i :: 0 <= i < |Drain(content, initialPos, size, pos)| ==> Drain(content, initialPos, size, pos)[i] != []
    decreases |content| - pos
  {
    var r := ReadStep(content, initialPos, 0, (_, _) => 0, pos, size);
    if r.data != [] {
      DrainReadsRest(content, initialPos, size, r.pos);
      assert content[pos..] == r.data + content[r.pos..];
      var d := Drain(content, initialPos, size, pos);
      assert d == [r.data] + Drain(content, initialPos, size, r.pos);
      assert d[1..] == Drain(content, initialPos, size, r.pos);
    }
  }

  lemma DrainEndsRewound(content: string, initialPos: nat, size: nat)
    requires 0 < size < |content|
    ensures ReadStep(content, initialPos, 0, (_, _) => 0, |content|, size).data == []
    ensures ReadStep(content, initialPos, 0, (_, _) => 0, |content|, size).pos == initialPos
  {
  }

  // ---------------------------------------------------------------------------
  // The twelve-byte file `Hello World!`

  const Hello := "Hello World!"

  /** `read(5)` then `read(7)` then `read(1)`: `Hello`, ` World!`, then nothing and a rewind. */
  lemma ReadsInParts(approxPercent: (int, int) -> int)
    ensures ReadStep(Hello, 0, 0, approxPercent, 0, 5).data == "Hello"
    ensures ReadStep(Hello, 0, 0, approxPercent, 0, 5).pos == 5
    ensures ReadStep(Hello, 0, 0, approxPercent, 5, 7).data == " World!"
    ensures ReadStep(Hello, 0, 0, approxPercent, 5, 7).pos == 12
    ensures ReadStep(Hello, 0, 0, approxPercent, 12, 1) == ReadResult("", 0, approxPercent(1, 12))
  {
  }

  /** `read()` or `read(100)` returns everything and rewinds; `read(7)` then starts over. */
  lemma ReadBeyondEnd(approxPercent: (int, int) -> int)
    ensures ReadStep(Hello, 0, 0, approxPercent, 0, -1) == ReadResult(Hello, 0, 100)
    ensures ReadStep(Hello, 0, 0, approxPercent, 0, 100).data == Hello
    ensures ReadStep(Hello, 0, 0, approxPercent, 0, 100).pos == 0
    ensures ReadStep(Hello, 0, 0, approxPercent, 0, 7).data == "Hello W"
    ensures ReadStep(Hello, 0, 0, approxPercent, 0, 7).pos == 7
  {
  }

  /** With `force_size=2`, `read(1)`, `read(2)`, `read(3)`, `read()` give two bytes each. */
  lemma ForcedBlocks(approxPercent: (int, int) -> int)
    ensures ReadStep(Hello, 0, 2, approxPercent, 0, 1).data == "He"
    ensures ReadStep(Hello, 0, 2, approxPercent, 2, 2).data == "ll"
    ensures ReadStep(Hello, 0, 2, approxPercent, 4, 3).data == "o "
    ensures ReadStep(Hello, 0, 2, approxPercent, 6, -1).data == "Wo"
    ensures ReadStep(Hello, 0, 2, approxPercent, 0, 1).pos == 2
    ensures ReadStep(Hello, 0, 2, approxPercent, 2, 2).pos == 4
    ensures ReadStep(Hello, 0, 2, approxPercent, 4, 3).pos == 6
  {
  }

  /** The object itself: a whole read, then `read(7)` from the start again. */
  method ReadBeyondEndOnObject(approxPercent: (int, int) -> int)
    returns (first: string, second: string, position: nat, calls: seq<int>)
    ensures first == Hello && second == "Hello W" && position == 7
    ensures calls == [100] + if approxPercent(7, 12) % 100 == 0 then [approxPercent(7, 12)] else []
  {
    var f := new FileWrapper(Hello, 0, true, 100, approxPercent);
    first := f.Read(-1);
    second := f.Read(7);
    position := f.pos;
    calls := f.reported;
    assert 100 % 100 == 0;
  }
}
