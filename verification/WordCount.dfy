/**
 The counting loop of the `wc` command: it reads an open file in pieces of 512 bytes and keeps its counts and
 its inside-a-word flag across the pieces. Whatever the pieces, the counts are those of the whole content.
 */
module WordCount {
  import opened Bytes
  import opened Chains
  import opened Names
  import opened Directory
  import opened VolumeState
  import opened FileContent
  import opened VolumeOps
  import opened AbstractFs
  import opened Refinement
  import opened Writes
  import opened OpenHandles
  import opened Sessions
  import opened Runs
  import opened Driver
  import opened DriverDirectory
  import opened DriverFiles
  import opened Commands

  const NEWLINE: Byte := 10

  predicate IsBlank(b: Byte) { b == 32 || b == 9 || b == NEWLINE }

  // ---- what is to be counted ----

  ghost function LineEnds(s: seq<Byte>, n: nat): set<nat>
    requires n <= |s|
  {
    set i: nat | i < n && s[i] == NEWLINE
  }

  /** Where a word starts: at a byte that is not blank, behind a blank or at the start. */
  ghost function WordStarts(s: seq<Byte>, n: nat): set<nat>
    requires n <= |s|
  {
    set i: nat | i < n && StartsWord(s, i)
  }

  predicate StartsWord(s: seq<Byte>, i: nat)
    requires i < |s|
  {
    !IsBlank(s[i]) && (i == 0 || IsBlank(s[i - 1]))
  }

  // ---- the loop ----

  datatype Tally = Tally(lines: nat, words: nat, chars: nat, inWord: bool)
  {
    /** One turn of the inner loop. */
    function Feed(b: Byte): Tally
    {
      Tally(
        if b == NEWLINE then lines + 1 else lines,
        if IsBlank(b) && inWord then words + 1 else words,
        chars + 1,
        !IsBlank(b))
    }

    function Total(): nat { if inWord then words + 1 else words }
  }

  const START: Tally := Tally(0, 0, 0, false)

  function FeedAll(t: Tally, s: seq<Byte>): Tally
  {
    if s == [] then t else FeedAll(t, s[..|s| - 1]).Feed(s[|s| - 1])
  }

  /** Counting piece by piece is counting the whole, wherever the pieces end. */
  lemma {:induction false} FeedJoin(t: Tally, a: seq<Byte>, b: seq<Byte>)
    ensures FeedAll(FeedAll(t, a), b) == FeedAll(t, a + b)
  {
    if b == [] {
      assert a + b == a;
    } else {
      FeedJoin(t, a, b[..|b| - 1]);
      assert (a + b)[..|a + b| - 1] == a + b[..|b| - 1];
    }
  }

  lemma LinesGrow(s: seq<Byte>, n: nat)
    requires 0 < n <= |s|
    ensures |LineEnds(s, n)| == |LineEnds(s, n - 1)| + if s[n - 1] == NEWLINE then 1 else 0
  {
    var now, before := LineEnds(s, n), LineEnds(s, n - 1);
    if s[n - 1] == NEWLINE { assert now == before + {n - 1}; } else { assert now == before; }
  }

  lemma WordsGrow(s: seq<Byte>, n: nat)
    requires 0 < n <= |s|
    ensures |WordStarts(s, n)| == |WordStarts(s, n - 1)| + if StartsWord(s, n - 1) then 1 else 0
  {
    hide StartsWord;
    var now, before := WordStarts(s, n), WordStarts(s, n - 1);
    if StartsWord(s, n - 1) { assert now == before + {n - 1}; } else { assert now == before; }
  }

  /** After `n` bytes the loop has counted the line ends, and the words that start, among them. */
  lemma {:induction false} TallyIs(s: seq<Byte>, n: nat)
    requires n <= |s|
    ensures var t := FeedAll(START, s[..n]);
            && t.lines == |LineEnds(s, n)| && t.Total() == |WordStarts(s, n)| && t.chars == n
            && t.inWord == (n > 0 && !IsBlank(s[n - 1]))
  {
    if n > 0 {
      TallyIs(s, n - 1);
      assert s[..n][..n - 1] == s[..n - 1];
      var b := s[n - 1];
      assert FeedAll(START, s[..n]) == FeedAll(START, s[..n - 1]).Feed(b);
      hide FeedAll;
      LinesGrow(s, n);
      WordsGrow(s, n);
      hide LineEnds, WordStarts;
    }
  }

  /** Feed a chunk. */
  method Count(buffer: array<Byte>, n: nat, t: Tally) returns (t': Tally)
    requires n <= buffer.Length
    ensures t' == FeedAll(t, buffer[..n])
  {
    var lines, words, chars, inWord := t.lines, t.words, t.chars, t.inWord;
    var j := 0;
    while j < n
      invariant j <= n && Tally(lines, words, chars, inWord) == FeedAll(t, buffer[..j])
    {
      assert buffer[..j + 1][..j] == buffer[..j];
      chars := chars + 1;
      if buffer[j] == NEWLINE { lines := lines + 1; }
      if IsBlank(buffer[j]) {
        if inWord {
          words := words + 1;
          inWord := false;
        }
      } else {
        inWord := true;
      }
      j := j + 1;
    }
    return Tally(lines, words, chars, inWord);
  }

  /** A handle on a sound chain stands on the volume. */
  lemma HandleStands(v: Vol, ch: seq<nat>, h: Cursor)
    requires Shaped(v) && HandleOk(v, ch, h)
    ensures Standing(v, h)
  {
    var k: nat :| CursorAt(ch, v.Bpc(), h, k);
    assert InRange(v.fat, ch[0]);
    if k < |ch| { assert InRange(v.fat, ch[k]); }
  }

  /** The state of a reader between two chunks: `done` bytes of the file have been delivered. */
  ghost predicate Reading(v: Vol, v0: Vol, ch: seq<nat>, h: Cursor, size: nat, done: nat)
  {
    && Shaped(v) && HandleOk(v, ch, h) && Coherent(v, h) && v == v0.(buf := v.buf)
    && h.pos == done && h.size == size
  }

  /** One chunk: the next `CHUNK` bytes of the file, fewer only at its end. */
  lemma ChunkRead(v: Vol, v0: Vol, ch: seq<nat>, h: Cursor, size: nat, done: nat)
    requires Reading(v, v0, ch, h, size, done) && size + CHUNK < WORD
    ensures h.off < v.Bpc() && done <= size && |Contents(v0, ch, size)| == size
    ensures var (v', h', out) := Read(v, h, CHUNK); var m := Min(CHUNK, size - done);
            Reading(v', v0, ch, h', size, done + m) && out == Contents(v0, ch, size)[done..done + m] && |out| == m
  {
    hide Read, Coherent, Flat;
    ReadReturnsContents(v, ch, h, CHUNK);
    assert Contents(v, ch, size) == Contents(v0, ch, size);
  }

  /** The counting loop of `wc`, on a handle at the start of a file: the numbers of line ends, of words and of
      bytes of its whole content. */
  method CountFile(fs: Volume, h: FileHandle, ghost ch: seq<nat>) returns (lines: nat, words: nat, chars: nat)
    requires fs.Valid() && fs.mounted && Linked(fs.State().fat) && h.inUse && !h.isDirectory
    requires Reading(fs.State(), fs.State(), ch, h.At(), h.fileSize, 0) && h.fileSize + CHUNK < WORD
    modifies fs.buffer, h`position, h`clusterOffset, h`currentCluster
    ensures fs.Valid() && fs.State() == old(fs.State()).(buf := fs.State().buf)
    ensures var c := Contents(old(fs.State()), ch, old(h.At()).size);
            lines == |LineEnds(c, |c|)| && words == |WordStarts(c, |c|)| && chars == |c| == old(h.At()).size
  {
    hide Read, HandleOk, Coherent, Contents, Linked, Reading, Standing, Shaped, FeedAll, LineEnds, WordStarts;
    hide Volume.State, Volume.Valid;
    ghost var v0, size := fs.State(), h.fileSize;
    ghost var c := Contents(v0, ch, size);
    ghost var done := 0;
    var t := START;
    NothingFed();
    var buffer := new Byte[CHUNK];
    ReadingParts(fs.State(), v0, ch, h.At(), size, 0);
    while true
      invariant fs.Valid() && fs.State().fat == v0.fat && fresh(buffer) && h.fileSize == size
      invariant Reading(fs.State(), v0, ch, h.At(), size, done) && done <= size == |c|
      invariant t == FeedAll(START, c[..done])
      decreases size - done
    {
      ReadingParts(fs.State(), v0, ch, h.At(), size, done);
      ChunkRead(fs.State(), v0, ch, h.At(), size, done);
      var n := ReadFile(fs, h, buffer, CHUNK);
      ghost var m := Min(CHUNK, size - done);
      ReadingParts(fs.State(), v0, ch, h.At(), size, done + m);
      if n == 0 { break; }
      t := Count(buffer, n, t);
      FeedJoin(START, c[..done], buffer[..n]);
      assert c[..done] + c[done..done + m] == c[..done + m];
      done := done + m;
    }
    assert c[..done] == c;
    TallyIs(c, |c|);
    return t.lines, t.Total(), t.chars;
  }

  lemma NothingFed()
    ensures FeedAll(START, []) == START
  {
  }

  lemma ReadingParts(v: Vol, v0: Vol, ch: seq<nat>, h: Cursor, size: nat, done: nat)
    requires Reading(v, v0, ch, h, size, done)
    ensures Standing(v, h) && v == v0.(buf := v.buf) && h.size == size && h.pos == done && done <= size
            && h.off < v.Bpc()
    ensures |Contents(v0, ch, size)| == size
  {
    HandleStands(v, ch, h);
    ChainUniform(v, ch);
    ContentsLength(v, ch, size);
  }

  // ---- the command ----

  /** A handle at the start of a file is ready to be read from. */
  lemma StartsReading(v: Vol, i: nat, h: Cursor, name: Name)
    requires Handled(v, i, h, name) && h.pos == 0
    ensures Reading(v, v, ChainsIn(v)[i], h, h.size, 0) && Linked(v.fat) && h.size <= Capacity(v)
    ensures i < |ChainsIn(v)| && name in Files(v) && Contents(v, ChainsIn(v)[i], h.size) == Files(v)[name].bytes
  {
    var k := HandledPlaced(v, i, h, name);
    hide Entries, Partition, Fitting, Counted, DirOk, Catalog, Contents, Uniform, Linked, IsChain;
    HandledFile(v, i, h, name);
    HandleBelow(v, i, h, name);
    SoundIsLinked(v);
    LiveChain(v, i);
    AtTheStart(ChainsIn(v)[i], v.Bpc(), h, k);
    assert v == v.(buf := v.buf);
  }

  lemma AtTheStart(ch: seq<nat>, n: nat, h: Cursor, k: nat)
    requires CursorAt(ch, n, h, k) && h.pos == 0
    ensures h.off == 0
  {
  }

  /** What `wc` has to say about a path. */
  ghost predicate CountedRight(files: map<Name, AbsFile>, name: Name, ok: bool, lines: nat, words: nat, chars: nat)
  {
    if name !in files then !ok
    else
      var s := if files[name].IsDirectory() then [] else files[name].bytes;
      ok && lines == |LineEnds(s, |s|)| && words == |WordStarts(s, |s|)| && chars == |s|
  }

  lemma NothingToCount()
    ensures LineEnds([], 0) == {} && WordStarts([], 0) == {}
  {
  }

  /** Opening for reading gives a handle at the start, and changes only the buffer. */
  lemma OpensToRead(v: Vol, path: seq<Byte>) returns (i: nat)
    requires Inv(v) && Addressable(v) && NameOf(path) in Files(v)
    ensures forall v1: Vol, o: Opened :: OpenedAs(v, path, MODE_READ, v1, Some(o)) ==> OpenedToRead(v, path, v1, o, i)
    ensures forall v1: Vol :: !OpenedAs(v, path, MODE_READ, v1, None)
  {
    hide Inv, Open, Shaped, Entries, Find, To83, Files, Abs, Handled, MarksDirectory, AbsFile.IsDirectory;
    LoadedInv(v);
    FindIsLookup(v.RootEntries(), NameOf(path));
    OpenFinds(v, path, MODE_READ);
    LoadedSame(v, v.root);
    i := OpenGivesHandle(v, path, MODE_READ);
    AbsFields(v);
    AbsFields(v.Loaded(v.root));
  }

  ghost predicate OpenedToRead(v: Vol, path: seq<Byte>, v1: Vol, o: Opened, i: nat)
  {
    var name := NameOf(path);
    && v1 == v.(buf := v1.buf) && Inv(v1) && Files(v1) == Files(v) && name in Files(v)
    && MarksDirectory(o.attr) == Files(v)[name].IsDirectory()
    && (!MarksDirectory(o.attr) ==> Handled(v1, i, o.cursor, name) && o.cursor.pos == 0)
  }

  /** Nothing but the shared buffer has changed. */
  ghost predicate OnlyBuffer(v: Vol, v': Vol) { v' == v.(buf := v'.buf) }

  /** A handle at the start of that file, or on a directory of that name. */
  ghost predicate AtFile(v: Vol, directory: bool, h: Cursor, i: nat, name: Name)
  {
    name in Files(v) && directory == Files(v)[name].IsDirectory()
    && (!directory ==> Handled(v, i, h, name) && h.pos == 0)
  }

  ghost predicate CountDone(v: Vol, name: Name, v': Vol, lines: nat, words: nat, chars: nat)
  {
    OnlyBuffer(v, v') && CountedRight(Files(v), name, true, lines, words, chars)
  }

  /** The counting, through the handle just opened; a directory cannot be read. */
  method CountOpened(fs: Volume, h: FileHandle, ghost i: nat, ghost name: Name)
      returns (lines: nat, words: nat, chars: nat)
    requires fs.Valid() && fs.mounted && h.inUse && AtFile(fs.State(), h.isDirectory, h.At(), i, name)
    modifies fs.buffer, h`position, h`clusterOffset, h`currentCluster
    ensures fs.Valid() && CountDone(old(fs.State()), name, fs.State(), lines, words, chars)
  {
    hide Inv, Handled, Files, Shaped, Reading, Standing, Linked, LineEnds, WordStarts, Volume.State, Volume.Valid;
    hide Contents, MarksDirectory;
    fs.StateAddressable();
    if h.isDirectory {
      var buffer := new Byte[CHUNK];
      chars := ReadFile(fs, h, buffer, CHUNK);
      NothingToCount();
      return 0, 0, chars;
    }
    StartsReading(fs.State(), i, h.At(), name);
    lines, words, chars := CountFile(fs, h, ChainsIn(fs.State())[i]);
  }

  /** `wc`: look, open, count, close. */
  method WordCountFile(fs: Volume, path: seq<Byte>) returns (ok: bool, lines: nat, words: nat, chars: nat)
    requires fs.Valid() && fs.mounted && Inv(fs.State()) && SomeFree(fs.handles)
    modifies fs.ramdisk, fs.buffer, fs`mirrored, fs`freeClusters, fs`nextFree, fs.handles
    ensures fs.Valid() && OnlyBuffer(old(fs.State()), fs.State())
    ensures CountedRight(old(Files(fs.State())), NameOf(path), ok, lines, words, chars)
    ensures SameUse(fs.handles)
  {
    hide Inv, Handled, OpenedAs, OpenedToRead, Files, To83, Shaped, CountedRight, OnlyBuffer;
    hide Volume.State, Volume.Valid, Entries, Find, MarksDirectory, Addressable;
    ok, lines, words, chars := false, 0, 0, 0;
    ghost var v := fs.State();
    var there := Exists(fs, path);
    ghost var v0 := fs.State();
    LookedUp(v, path, v0);
    if !there { return; }
    fs.StateAddressable();
    ghost var i := OpensToRead(v0, path);
    var h, o := OpenFile(fs, path, MODE_READ);
    if h == null { return; }
    ghost var v1 := fs.State();
    ok := true;
    ReadParts(v0, path, v1, o.value, i);
    lines, words, chars := CountOpened(fs, h, i, NameOf(path));
    BuffersOnly(v, v0, v1, fs.State());
    fs.Close(h);
  }

  lemma LookedUp(v: Vol, path: seq<Byte>, v0: Vol)
    requires Inv(v) && v0 == v.Loaded(v.root)
    ensures Inv(v0) && Files(v0) == Files(v) && OnlyBuffer(v, v0)
    ensures NameOf(path) !in Files(v) ==> CountedRight(Files(v), NameOf(path), false, 0, 0, 0)
  {
    hide Inv, Files, To83;
    LoadedInv(v);
    LoadedSame(v, v.root);
  }

  lemma BuffersOnly(v: Vol, v0: Vol, v1: Vol, v2: Vol)
    requires OnlyBuffer(v, v0) && OnlyBuffer(v0, v1) && OnlyBuffer(v1, v2)
    ensures OnlyBuffer(v, v2)
  {
  }

  lemma ReadParts(v: Vol, path: seq<Byte>, v1: Vol, o: Opened, i: nat)
    requires OpenedToRead(v, path, v1, o, i)
    ensures OnlyBuffer(v, v1) && Files(v1) == Files(v) && NameOf(path) in Files(v)
    ensures MarksDirectory(o.attr) == Files(v)[NameOf(path)].IsDirectory()
    ensures !MarksDirectory(o.attr) ==> Handled(v1, i, o.cursor, NameOf(path)) && o.cursor.pos == 0
  {
    hide Inv, Handled, Files, MarksDirectory, To83;
  }

  // ---- byte by byte ----

  /** 10 ends a line; 9, 10 and 32 end a word. */
  lemma CountsAre(s: seq<Byte>)
    ensures LineEnds(s, |s|) == set i: nat | i < |s| && s[i] == 10
    ensures forall i: nat :: i in WordStarts(s, |s|) <==>
              i < |s| && s[i] !in {9, 10, 32} && (i == 0 || s[i - 1] in {9, 10, 32})
  {
    forall i: nat
      ensures i in WordStarts(s, |s|) <==> i < |s| && StartsWord(s, i)
      ensures i < |s| ==> (StartsWord(s, i) <==> s[i] !in {9, 10, 32} && (i == 0 || s[i - 1] in {9, 10, 32}))
    {
    }
  }
}
