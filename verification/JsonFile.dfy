/** ParseJsonFile: reading a whole file into a buffer through read(2), which may return fewer bytes
    than asked for, be interrupted or fail. Every character stands for one byte. */
module JsonFile {

  /** What the system answers to one read: at most `limit` bytes, EINTR, or another error. */
  datatype ReadAnswer = AtMost(limit: nat) | Interrupted | Failed

  /** What reading the file ends in: the bytes handed to the JSON parser, or an exception. */
  datatype Outcome = Parse(bytes: string) | CannotOpen | NoStats | NoMemory | ReadError | Empty

  const CHUNK := 4096

  function Min(a: nat, b: nat): nat {
    if a < b then a else b
  }

  /** `limit` bytes or fewer, but no fewer than one while there are some. */
  function Given(a: ReadAnswer, count: nat, left: nat): nat
    requires a.AtMost?
  {
    Min(count, Min(left, if a.limit == 0 then 1 else a.limit))
  }

  class FileDescriptor {
    const content: string
    const answers: seq<ReadAnswer>   // to the reads, in order; behind them every read is complete
    var pos: nat
    var calls: nat
    var isOpen: bool
    ghost var asked: seq<nat>        // the byte counts asked for

    constructor (content: string, answers: seq<ReadAnswer>)
      ensures this.content == content && this.answers == answers && Fresh()
    {
      this.content := content;
      this.answers := answers;
      pos, calls, isOpen := 0, 0, true;
      asked := [];
    }

    ghost predicate Valid()
      reads this
    {
      pos <= |content| && |asked| == calls
    }

    ghost predicate Fresh()
      reads this
    {
      Valid() && isOpen && pos == 0 && calls == 0
    }

    method Close()
      requires isOpen
      modifies this`isOpen
      ensures !isOpen
    {
      isOpen := false;
    }

    /** read(fd, buffer + at, count); a negative result comes with errno being EINTR or not. */
    method Read(buffer: array<char>, at: nat, count: nat) returns (n: int, interrupted: bool)
      requires Valid() && isOpen && at + count <= buffer.Length
      modifies this`pos, this`calls, this`asked, buffer
      ensures Valid() && asked == old(asked) + [count]
      ensures n < 0 <==> old(calls) < |answers| && !answers[old(calls)].AtMost?
      ensures interrupted <==> old(calls) < |answers| && answers[old(calls)].Interrupted?
      ensures n < 0 ==> pos == old(pos) && buffer[..] == old(buffer[..]) && buffer[..at] == old(buffer[..at])
      ensures n >= 0 ==> n <= count && pos == old(pos) + n && (n == 0 <==> count == 0 || old(pos) == |content|)
      ensures n >= 0 ==> buffer[..at + n] == old(buffer[..at]) + content[old(pos)..pos]
    {
      var answer := if calls < |answers| then answers[calls] else AtMost(count);
      calls := calls + 1;
      asked := asked + [count];
      if !answer.AtMost? {
        return -1, answer.Interrupted?;
      }
      var start, given := pos, Given(answer, count, |content| - pos);
      ghost var before := buffer[..at];
      for j := 0 to given
        invariant buffer[..at + j] == before + content[start..start + j]
        modifies buffer
      {
        buffer[at + j] := content[start + j];
        assert buffer[..at + j + 1] == buffer[..at + j] + [content[start + j]];
        assert content[start..start + j + 1] == content[start..start + j] + [content[start + j]];
      }
      pos := pos + given;
      return given, false;
    }
  }

  /** realloc: a longer block that begins with the old bytes, the first `used` among them. */
  method Reallocate(buffer: array<char>, size: nat, ghost used: nat) returns (bigger: array<char>)
    requires used <= buffer.Length <= size
    ensures fresh(bigger) && bigger.Length == size
    ensures bigger[..buffer.Length] == buffer[..] && bigger[..used] == buffer[..used]
  {
    bigger := new char[size];
    for j := 0 to buffer.Length
      invariant bigger[..j] == buffer[..j]
    {
      bigger[j] := buffer[j];
    }
    assert buffer[..buffer.Length] == buffer[..];
    Prefix(bigger[..buffer.Length], bigger[..], used);
    Prefix(buffer[..], buffer[..], used);
  }

  lemma Prefix(a: string, b: string, n: nat)
    requires n <= |a| <= |b| && a == b[..|a|]
    ensures a[..n] == b[..n]
  {
  }

  /** The bytes so far and the next ones are the bytes so far. */
  lemma Extend(content: string, n: nat, count: nat)
    requires n + count <= |content|
    ensures content[..n] + content[n..n + count] == content[..n + count]
  {
  }

  /** Every read asks for at least one chunk and fewer than two, so a zero count means end of file. */
  ghost predicate AskedChunks(asked: seq<nat>) {
    forall k | 0 <= k < |asked| :: 4096 <= asked[k] < 8192
  }

  /** The first `n` reads do not fail. */
  ghost predicate Succeed(answers: seq<ReadAnswer>, n: nat) {
    forall k | 0 <= k < n && k < |answers| :: !answers[k].Failed?
  }

  /** The n-th read is the first that fails. */
  ghost predicate FailsAt(answers: seq<ReadAnswer>, n: nat) {
    0 < n <= |answers| && answers[n - 1].Failed? && Succeed(answers, n - 1)
  }

  function Remaining(answers: seq<ReadAnswer>, n: nat): nat {
    if n < |answers| then |answers| - n else 0
  }

  /** The k-th block, of k chunks, was needed for what was read so far and is the first refused. */
  ghost predicate Refused(allocates: nat -> bool, k: nat, pos: nat) {
    && k > 0 && !allocates(k * CHUNK)
    && (forall j | 0 < j < k :: allocates(j * CHUNK))
    && (k > 1 ==> (k - 2) * CHUNK < pos <= (k - 1) * CHUNK)
  }

  /** The blocks needed for what was read were all given. */
  ghost predicate Granted(allocates: nat -> bool, k: nat, pos: nat) {
    && k > 0 && pos <= k * CHUNK && forall j | 0 < j <= k :: allocates(j * CHUNK)
  }

  lemma OneMoreBlock(allocates: nat -> bool, k: nat, pos: nat)
    requires Granted(allocates, k, pos) && (k - 1) * CHUNK < pos
    ensures if allocates((k + 1) * CHUNK) then Granted(allocates, k + 1, pos) else Refused(allocates, k + 1, pos)
  {
  }

  /** Makes room for a chunk behind the first `fileSize` bytes, unless the k-th block has it. */
  method MakeRoom(buffer: array<char>, fileSize: nat, allocates: nat -> bool, ghost k: nat)
    returns (bigger: array<char>, ok: bool, ghost blocks: nat)
    requires buffer.Length == k * CHUNK && fileSize <= buffer.Length < fileSize + 2 * CHUNK
    requires Granted(allocates, k, fileSize)
    ensures ok ==> bigger.Length == blocks * CHUNK && CHUNK <= bigger.Length - fileSize < 2 * CHUNK
    ensures ok ==> (bigger == buffer || fresh(bigger)) && bigger[..fileSize] == buffer[..fileSize]
    ensures if ok then Granted(allocates, blocks, fileSize) else Refused(allocates, blocks, fileSize)
  {
    bigger, ok, blocks := buffer, true, k;
    if buffer.Length - fileSize < CHUNK {
      OneMoreBlock(allocates, k, fileSize);
      blocks := k + 1;
      ok := allocates(buffer.Length + CHUNK);
      if ok {
        bigger := Reallocate(buffer, buffer.Length + CHUNK, fileSize);
      }
    }
  }

  /** The growing buffer, for files that report size 0: the whole content, however it comes. */
  method ReadGrowing(fd: FileDescriptor, allocates: nat -> bool) returns (r: Outcome, ghost k: nat)
    requires fd.Fresh()
    modifies fd
    ensures !fd.isOpen && AskedChunks(fd.asked)
    ensures r.Parse? ==> r.bytes == fd.content && fd.content != ""
    ensures r.Empty? ==> fd.content == ""
    ensures r.Parse? || r.Empty? || r.ReadError? || r.NoMemory?
    ensures if r.ReadError? then FailsAt(fd.answers, fd.calls) else Succeed(fd.answers, fd.calls)
    ensures if r.NoMemory? then Refused(allocates, k, fd.pos) else Granted(allocates, k, fd.pos)
  {
    k := 1;
    if !allocates(CHUNK) {
      fd.Close();
      return NoMemory, k;
    }
    var buffer := new char[CHUNK];
    var fileSize := 0;
    while true
      invariant fd.Valid() && fd.isOpen && AskedChunks(fd.asked)
      invariant fresh(buffer) && buffer.Length == k * CHUNK
      invariant fileSize == fd.pos <= buffer.Length < fileSize + 2 * CHUNK
      invariant Granted(allocates, k, fd.pos)
      invariant buffer[..fileSize] == fd.content[..fileSize]
      invariant Succeed(fd.answers, fd.calls)
      decreases Remaining(fd.answers, fd.calls), |fd.content| - fd.pos
    {
      var ok;
      buffer, ok, k := MakeRoom(buffer, fileSize, allocates, k);
      if !ok {
        fd.Close();
        return NoMemory, k;
      }
      OneMoreRead(fd.answers, fd.calls, fd.asked, buffer.Length - fileSize);
      var count, interrupted := fd.Read(buffer, fileSize, buffer.Length - fileSize);
      if count < 0 {
        if interrupted {
          continue;
        }
        fd.Close();
        return ReadError, k;
      }
      Extend(fd.content, fileSize, count);
      if count == 0 {
        break;
      }
      fileSize := fileSize + count;
    }
    fd.Close();
    if fileSize == 0 {
      return Empty, k;
    }
    assert fd.content[..fileSize] == fd.content;
    return Parse(buffer[..fileSize]), k;
  }

  lemma OneMoreRead(answers: seq<ReadAnswer>, n: nat, asked: seq<nat>, count: nat)
    requires Succeed(answers, n) && AskedChunks(asked) && CHUNK <= count < 2 * CHUNK
    ensures AskedChunks(asked + [count])
    ensures if n < |answers| && answers[n].Failed? then FailsAt(answers, n + 1) else Succeed(answers, n + 1)
  {
  }

  /** The buffer of the size that fstat reports: the content, up to that size. Resizing it may throw,
      and nothing closes the descriptor then. */
  method ReadSized(fd: FileDescriptor, size: nat, allocates: nat -> bool) returns (r: Outcome)
    requires fd.Fresh() && size > 0
    modifies fd
    ensures fd.isOpen <==> !allocates(size)
    ensures r.NoMemory? <==> !allocates(size)
    ensures r.Parse? ==> r.bytes == fd.content[..Min(size, |fd.content|)] && fd.content != ""
    ensures r.Empty? ==> fd.content == ""
    ensures r.Parse? || r.Empty? || r.ReadError? || r.NoMemory?
    ensures if r.ReadError? then FailsAt(fd.answers, fd.calls) else Succeed(fd.answers, fd.calls)
  {
    if !allocates(size) {
      return NoMemory;
    }
    var buffer := new char[size];
    var offset := 0;
    var more := true;
    while more
      invariant fd.Valid() && fd.isOpen && fresh(buffer) && buffer.Length == size
      invariant offset == fd.pos <= size && (more ==> offset < size)
      invariant !more ==> offset == Min(size, |fd.content|)
      invariant buffer[..offset] == fd.content[..offset]
      invariant Succeed(fd.answers, fd.calls)
      decreases more, Remaining(fd.answers, fd.calls), |fd.content| - fd.pos
    {
      var count, interrupted := fd.Read(buffer, offset, size - offset);
      if count < 0 {
        if interrupted {
          more := offset < size;
          continue;
        }
        fd.Close();
        return ReadError;
      }
      Extend(fd.content, offset, count);
      if count == 0 {
        more := false;
        break;
      }
      offset := offset + count;
      more := offset < size;
    }
    fd.Close();
    if offset == 0 {
      return Empty;
    }
    return Parse(buffer[..offset]);
  }

  /** What reading a file whose reads do not fail ends in. */
  function Whole(content: string, size: nat): Outcome {
    if content == "" then Empty else Parse(if size == 0 then content else content[..Min(size, |content|)])
  }

  /** When the descriptor stays open: the buffer cannot be made as long as fstat says. */
  predicate Leaks(stats: bool, size: nat, allocates: nat -> bool) {
    stats && size > 0 && !allocates(size)
  }

  /** `opens` and `stats` say whether open and fstat succeed; `size` is the size fstat reports. */
  method ParseJsonFile(fd: FileDescriptor, opens: bool, stats: bool, size: nat, allocates: nat -> bool)
    returns (r: Outcome)
    requires fd.Fresh()
    modifies fd
    ensures opens ==> (fd.isOpen <==> Leaks(stats, size, allocates))
    ensures r.CannotOpen? <==> !opens
    ensures r.NoStats? <==> opens && !stats
    ensures opens && stats ==> r == Whole(fd.content, size) || r.ReadError? || r.NoMemory?
    ensures if r.ReadError? then FailsAt(fd.answers, fd.calls) else Succeed(fd.answers, fd.calls)
    ensures size == 0 && r.NoMemory? ==> exists k: nat :: Refused(allocates, k, fd.pos)
    ensures size == 0 && opens && stats && !r.NoMemory? ==> exists k: nat :: Granted(allocates, k, fd.pos)
    ensures size > 0 ==> (r.NoMemory? <==> opens && Leaks(stats, size, allocates))
    ensures size == 0 ==> AskedChunks(fd.asked)
  {
    if !opens {
      return CannotOpen;
    }
    if !stats {
      fd.Close();
      return NoStats;
    }
    if size == 0 {
      ghost var k: nat;
      r, k := ReadGrowing(fd, allocates);
    } else {
      r := ReadSized(fd, size, allocates);
    }
  }

  /** A file longer than the longest memory block, as a sparse file may be: the exception leaves the
      descriptor open. */
  method SparseFileLeaks(content: string, limit: nat) returns (fd: FileDescriptor, r: Outcome)
    requires |content| > limit
    ensures fd.content == content && fd.isOpen && r.NoMemory?
  {
    fd := new FileDescriptor(content, []);
    r := ParseJsonFile(fd, true, true, |content|, size => size <= limit);
  }
}
