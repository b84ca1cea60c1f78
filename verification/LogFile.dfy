/** log/handler.go: recovery of a torn log file and rotation into bounded chunks. */
module LogFile {
  import opened Wrappers
  import opened Lines

  // ---------- recovery ----------

  /** An open file: its bytes and the read offset. */
  class File {
    var content: string
    var pos: nat

    constructor (content: string)
      ensures this.content == content && pos == 0
    {
      this.content := content;
      pos := 0;
    }

    /** Seek relative to a base; a negative target is an error and moves nothing. */
    method SeekFrom(base: nat, offset: int) returns (ok: bool)
      modifies this`pos
      ensures ok <==> base + offset >= 0
      ensures pos == if ok then base + offset else old(pos)
    {
      ok := base + offset >= 0;
      if ok {
        pos := base + offset;
      }
    }

    /** Read one byte and step over it; end of file is an error. */
    method ReadByte() returns (b: Option<char>)
      modifies this`pos
      ensures old(pos) < |content| ==> b == Some(content[old(pos)]) && pos == old(pos) + 1
      ensures old(pos) >= |content| ==> b == None && pos == old(pos)
    {
      if pos < |content| {
        b := Some(content[pos]);
        pos := pos + 1;
      } else {
        b := None;
      }
    }

    method Truncate(size: nat)
      requires size <= |content|
      modifies this`content
      ensures content == old(content)[..size]
    {
      content := content[..size];
    }
  }

  /** Cuts the file to its longest prefix that ends in a newline and reports that
      length; a file without any newline is an error and is left alone. */
  method PrepFile(f: File) returns (r: Result<nat>)
    modifies f
    ensures r.Ok? <==> '\n' in old(f.content)
    ensures r.Ok? ==> f.content == CompletePart(old(f.content)) && r.value == |f.content|
    ensures r.Err? ==> f.content == old(f.content)
  {
    ghost var text := f.content;
    var ok := f.SeekFrom(|f.content|, -1);
    if !ok {
      return Err;
    }
    var cut := 0;
    while true
      invariant f.content == text
      invariant 0 <= cut < |text| && f.pos == |text| - 1 - cut
      invariant forall j :: |text| - cut <= j < |text| ==> text[j] != '\n'
      decreases |text| - cut
    {
      var b := f.ReadByte();
      if b.None? {
        return Err;
      }
      if b.value == '\n' {
        break;
      }
      ok := f.SeekFrom(f.pos, -2);
      if !ok {
        return Err;
      }
      cut := cut + 1;
    }
    var ns := |f.content| - cut;
    f.Truncate(ns);
    CompletePartIsUnique(text, text[..ns]);
    return Ok(ns);
  }

  // ---------- rotation ----------

  /** Written, a failed os.OpenFile, or the nil writer closed by a later call. */
  datatype Outcome = Written | OpenFailed | Crashed

  /** The directory, the chunk open for writing and its byte counter. */
  datatype Sink = Sink(files: map<string, string>, current: Option<string>, count: nat)
  {
    predicate Open() {
      current.Some? ==> current.value in files
    }
  }

  /** One record: the chunk name its timestamp gives, and its formatted text. */
  datatype Entry = Entry(name: string, text: string)

  function ContentOf(files: map<string, string>, name: string): string {
    if name in files then files[name] else ""
  }

  datatype DirEntry = DirEntry(name: string, regular: bool)
  {
    predicate IsChunk() {
      regular && |name| >= 4 && name[|name| - 4..] == ".log"
    }
  }

  /** The name of the last chunk of a listing. */
  function LastLog(listing: seq<DirEntry>): (r: Option<string>)
    ensures r.Some? ==> exists d :: d in listing && d.regular && d.name == r.value
  {
    if listing == [] then None
    else
      var d := listing[|listing| - 1];
      if d.IsChunk() then Some(d.name) else LastLog(listing[..|listing| - 1])
  }

  /** A regular file whose name ends in ".log". */
  ghost predicate IsLog(d: DirEntry) {
    d.regular && exists stem: string :: d.name == stem + ".log"
  }

  /** Entry k is a log file and none after it is. */
  ghost predicate IsLastLog(listing: seq<DirEntry>, k: nat) {
    k < |listing| && IsLog(listing[k]) && forall j :: k < j < |listing| ==> !IsLog(listing[j])
  }

  lemma ChunksAreLogs(d: DirEntry)
    ensures d.IsChunk() <==> IsLog(d)
  {
    var n := |d.name|;
    if d.IsChunk() {
      assert d.name == d.name[..n - 4] + ".log";
    }
    if stem: string :| d.name == stem + ".log" {
      assert d.name[n - 4..] == ".log";
    }
  }

  lemma LastOfLonger(listing: seq<DirEntry>, k: nat)
    requires listing != [] && !IsLog(listing[|listing| - 1])
    ensures IsLastLog(listing, k) <==> IsLastLog(listing[..|listing| - 1], k)
  {
    hide IsLog;
  }

  lemma LastIsLast(listing: seq<DirEntry>)
    requires listing != [] && IsLog(listing[|listing| - 1])
    ensures forall k: nat :: IsLastLog(listing, k) <==> k == |listing| - 1
  {
    hide IsLog;
  }

  lemma InRange(listing: seq<DirEntry>, k: nat)
    requires IsLastLog(listing, k)
    ensures k < |listing|
  {
  }

  lemma {:induction false} LastLogByPosition(listing: seq<DirEntry>)
    ensures forall k: nat :: IsLastLog(listing, k) ==> LastLog(listing) == Some(listing[k].name)
    ensures (forall d :: d in listing ==> !IsLog(d)) ==> LastLog(listing) == None
    ensures LastLog(listing).Some? ==> exists k: nat :: IsLastLog(listing, k)
  {
    if listing != [] {
      var n := |listing| - 1;
      hide IsLog, IsLastLog;
      ChunksAreLogs(listing[n]);
      if IsLog(listing[n]) {
        LastIsLast(listing);
        assert IsLastLog(listing, n);
      } else {
        LastLogByPosition(listing[..n]);
        forall k: nat
          ensures IsLastLog(listing, k) <==> IsLastLog(listing[..n], k)
          ensures IsLastLog(listing, k) ==> k < n
        {
          LastOfLonger(listing, k);
          if IsLastLog(listing[..n], k) {
            InRange(listing[..n], k);
          }
        }
      }
    }
  }

  /** The effect of logging one record when opening a file succeeds or not. */
  function LogStep(limit: nat, s: Sink, e: Entry, openOk: bool): (r: (Sink, Outcome))
    requires s.Open()
    ensures r.0.Open()
  {
    if s.count > limit && s.current.None? then (s, Crashed)
    else if (s.count > limit || s.current.None?) && !openOk then (s.(current := None), OpenFailed)
    else if s.count > limit || s.current.None? then
      (Sink(s.files[e.name := ContentOf(s.files, e.name) + e.text], Some(e.name), |e.text|), Written)
    else
      var name := s.current.value;
      (Sink(s.files[name := s.files[name] + e.text], Some(name), s.count + |e.text|), Written)
  }

  /** The state a successful start reaches. */
  function Resumed(limit: nat, files: map<string, string>, last: Option<string>): (s: Sink)
    requires last.Some? ==> last.value in files
    ensures s.Open()
  {
    if last.Some? && |files[last.value]| < limit then
      var kept := CompletePart(files[last.value]);
      Sink(files[last.value := kept], last, |kept|)
    else Sink(files, None, 0)
  }

  ghost predicate NoLog(listing: seq<DirEntry>) {
    forall d :: d in listing ==> !IsLog(d)
  }

  /** The last log file of the listing is continued when it is below the limit, and nothing
      is when it is not or when there is none. */
  ghost predicate FollowsListing(limit: nat, files: map<string, string>, listing: seq<DirEntry>, s: Sink) {
    && (s.current.Some? ==> exists k: nat :: IsLastLog(listing, k) && listing[k].name == s.current.value)
    && (NoLog(listing) ==> s.current == None && s.files == files)
    && forall k: nat :: IsLastLog(listing, k) && listing[k].name in files ==>
         s.current == if |files[listing[k].name]| < limit then Some(listing[k].name) else None
  }

  lemma ResumedFollows(limit: nat, files: map<string, string>, listing: seq<DirEntry>)
    requires LastLog(listing).Some? ==> LastLog(listing).value in files
    ensures FollowsListing(limit, files, listing, Resumed(limit, files, LastLog(listing)))
    ensures NoLog(listing) ==> LastLog(listing) == None
  {
    LastLogByPosition(listing);
    hide IsLog, LastLog, IsLastLog;
  }

  /** The loop from the end of the listing; -1 when no log is found. */
  method ChooseLog(listing: seq<DirEntry>) returns (last: int)
    ensures -1 <= last < |listing|
    ensures LastLog(listing) == if last < 0 then None else Some(listing[last].name)
    ensures last >= 0 ==> listing[last].regular
  {
    last := |listing| - 1;
    assert listing[..|listing|] == listing;
    while last >= 0 && !listing[last].IsChunk()
      invariant -1 <= last < |listing|
      invariant LastLog(listing) == LastLog(listing[..last + 1])
      decreases last
    {
      assert listing[..last + 1][..last] == listing[..last];
      last := last - 1;
    }
  }

  class RotatingFile {
    const limit: nat
    var files: map<string, string>
    var w: Option<string>
    var count: nat

    ghost predicate Valid()
      reads this
    {
      State().Open()
    }

    ghost function State(): Sink
      reads this
    {
      Sink(files, w, count)
    }

    constructor (limit: nat, files: map<string, string>)
      ensures Valid() && this.limit == limit && this.files == files && w == None && count == 0
    {
      this.limit := limit;
      this.files := files;
      w := None;
      count := 0;
    }

    /** RotatingFileHandler: the last regular ".log" file of the sorted listing is
        recovered and continued when it is below the limit; when it is and holds no
        complete line, the handler does not start. */
    method Start(listing: seq<DirEntry>) returns (r: Result<()>)
      requires Valid() && w == None && count == 0
      requires forall d :: d in listing && d.regular ==> d.name in files
      modifies this
      ensures Valid()
      ensures var last := LastLog(listing);
              && (r.Err? <==> last.Some? && |old(files)[last.value]| < limit
                              && '\n' !in old(files)[last.value])
              && State() == (if r.Ok? then Resumed(limit, old(files), last) else old(State()))
      ensures r.Ok? ==> FollowsListing(limit, old(files), listing, State())
      ensures NoLog(listing) ==> r.Ok?
    {
      ResumedFollows(limit, files, listing);
      hide FollowsListing, NoLog;
      var last := ChooseLog(listing);
      assert last >= 0 ==> listing[last] in listing;
      hide LastLog;
      if last >= 0 && |files[listing[last].name]| < limit {
        var name := listing[last].name;
        var f := new File(files[name]);
        var size := PrepFile(f);
        if size.Err? {
          return Err;
        }
        files := files[name := f.content];
        w := Some(name);
        count := size.value;
      }
      return Ok(());
    }

    method Log(e: Entry, openOk: bool) returns (outcome: Outcome)
      requires Valid()
      modifies this
      ensures Valid()
      ensures (State(), outcome) == LogStep(limit, old(State()), e, openOk)
    {
      if count > limit {
        if w.None? {
          return Crashed;
        }
        w := None;
      }
      if w.None? {
        if !openOk {
          return OpenFailed;
        }
        files := files[e.name := ContentOf(files, e.name)];
        w := Some(e.name);
        count := 0;
      }
      files := files[w.value := files[w.value] + e.text];
      count := count + |e.text|;
      assert files == LogStep(limit, old(State()), e, openOk).0.files;
      return Written;
    }
  }

  // ---------- what the directory holds after a run ----------

  /** A file as a sequence of records behind the text it was resumed with. */
  datatype Chunk = Chunk(name: string, start: string, records: seq<string>)
  {
    function Text(): string {
      start + Concat(records)
    }
  }

  function Texts(es: seq<Entry>): (r: seq<string>)
    ensures |r| == |es|
  {
    if es == [] then [] else Texts(es[..|es| - 1]) + [es[|es| - 1].text]
  }

  function Records(chunks: seq<Chunk>): seq<string> {
    if chunks == [] then [] else Records(chunks[..|chunks| - 1]) + chunks[|chunks| - 1].records
  }

  function Contents(chunks: seq<Chunk>): seq<string> {
    if chunks == [] then [] else Contents(chunks[..|chunks| - 1]) + [chunks[|chunks| - 1].Text()]
  }

  function Names(chunks: seq<Chunk>): set<string> {
    set c | c in chunks :: c.name
  }

  predicate StartsChunk(limit: nat, chunks: seq<Chunk>) {
    chunks == [] || |chunks[|chunks| - 1].Text()| > limit
  }

  function Extend(chunks: seq<Chunk>, text: string): (r: seq<Chunk>)
    requires chunks != []
    ensures |r| == |chunks| && forall i :: 0 <= i < |r| ==> r[i].name == chunks[i].name
    ensures forall i :: 0 <= i < |r| - 1 ==> r[i] == chunks[i]
  {
    var last := chunks[|chunks| - 1];
    chunks[..|chunks| - 1] + [last.(records := last.records + [text])]
  }

  /** The reference: records go to the last chunk until its text exceeds the limit. */
  function AddRecord(limit: nat, chunks: seq<Chunk>, e: Entry): seq<Chunk> {
    if StartsChunk(limit, chunks) then chunks + [Chunk(e.name, "", [e.text])] else Extend(chunks, e.text)
  }

  function Chunking(limit: nat, resumed: seq<Chunk>, es: seq<Entry>): seq<Chunk> {
    if es == [] then resumed
    else AddRecord(limit, Chunking(limit, resumed, es[..|es| - 1]), es[|es| - 1])
  }

  /** The chunk a start resumes, with its recovered text. */
  function ResumedChunk(limit: nat, files: map<string, string>, last: Option<string>): seq<Chunk>
    requires last.Some? ==> last.value in files
  {
    if last.Some? && |files[last.value]| < limit then
      [Chunk(last.value, CompletePart(files[last.value]), [])]
    else []
  }

  /** A run in which every file opens. */
  function Run(limit: nat, s: Sink, es: seq<Entry>): (r: Sink)
    requires s.Open()
    ensures r.Open()
  {
    if es == [] then s else LogStep(limit, Run(limit, s, es[..|es| - 1]), es[|es| - 1], true).0
  }

  /** No timestamp names two chunks, or a file that was there before. */
  ghost predicate FreshNames(files: map<string, string>, resumed: nat, chunks: seq<Chunk>) {
    && (forall i, j :: 0 <= i < j < |chunks| ==> chunks[i].name != chunks[j].name)
    && (forall i :: resumed <= i < |chunks| ==> chunks[i].name !in files)
  }

  ghost predicate IsChunkName(chunks: seq<Chunk>, name: string) {
    exists i :: 0 <= i < |chunks| && chunks[i].name == name
  }

  ghost predicate HoldsChunks(chunks: seq<Chunk>, s: Sink) {
    forall i :: 0 <= i < |chunks| ==>
      chunks[i].name in s.files && s.files[chunks[i].name] == chunks[i].Text()
  }

  ghost predicate OthersAsBefore(files: map<string, string>, chunks: seq<Chunk>, s: Sink) {
    forall n :: !IsChunkName(chunks, n) ==>
      (n in s.files <==> n in files) && (n in files ==> s.files[n] == files[n])
  }

  predicate WritesLast(chunks: seq<Chunk>, s: Sink) {
    if chunks == [] then s.current.None? && s.count == 0
    else s.current == Some(chunks[|chunks| - 1].name) && s.count == |chunks[|chunks| - 1].Text()|
  }

  /** The directory agrees with the reference chunks; every other file is as it was. */
  ghost predicate Agrees(files: map<string, string>, chunks: seq<Chunk>, s: Sink) {
    s.Open() && HoldsChunks(chunks, s) && OthersAsBefore(files, chunks, s) && WritesLast(chunks, s)
  }

  lemma ConcatSnoc(records: seq<string>, text: string)
    ensures Concat(records + [text]) == Concat(records) + text
  {
    assert (records + [text])[..|records|] == records;
  }

  lemma NewChunkAgrees(limit: nat, files: map<string, string>, chunks: seq<Chunk>, s: Sink, e: Entry)
    requires Agrees(files, chunks, s) && StartsChunk(limit, chunks)
    requires e.name !in files && !IsChunkName(chunks, e.name)
    ensures Agrees(files, chunks + [Chunk(e.name, "", [e.text])], LogStep(limit, s, e, true).0)
  {
    var added := Chunk(e.name, "", [e.text]);
    var next := chunks + [added];
    ConcatSnoc([], e.text);
    assert ([]) + [e.text] == [e.text];
    assert added.Text() == e.text;
    assert next[|chunks|] == added;
    forall n
      ensures IsChunkName(next, n) <==> IsChunkName(chunks, n) || n == e.name
    {
      if i :| 0 <= i < |chunks| && chunks[i].name == n {
        assert next[i].name == n;
      }
    }
  }

  /** The file being written is this chunk's. */
  predicate EndsWith(s: Sink, last: Chunk) {
    && s.current == Some(last.name) && s.count == |last.Text()|
    && last.name in s.files && s.files[last.name] == last.Text()
  }

  lemma AgreesAtTheEnd(limit: nat, files: map<string, string>, chunks: seq<Chunk>, s: Sink)
    requires Agrees(files, chunks, s) && !StartsChunk(limit, chunks)
    ensures chunks != [] && s.Open() && EndsWith(s, chunks[|chunks| - 1])
    ensures |chunks[|chunks| - 1].Text()| <= limit
  {
    hide Concat, IsChunkName;
  }

  /** All but the last record of a chunk. */
  function WithoutLastRecord(c: Chunk): string {
    if c.records == [] then c.start else c.start + Concat(c.records[..|c.records| - 1])
  }

  lemma GrownChunk(c: Chunk, text: string)
    ensures c.(records := c.records + [text]).Text() == c.Text() + text
    ensures WithoutLastRecord(c.(records := c.records + [text])) == c.Text()
  {
    ConcatSnoc(c.records, text);
    assert (c.records + [text])[..|c.records|] == c.records;
  }

  lemma LastExtended(chunks: seq<Chunk>, text: string)
    requires chunks != []
    ensures Extend(chunks, text)[|chunks| - 1].Text() == chunks[|chunks| - 1].Text() + text
  {
    GrownChunk(chunks[|chunks| - 1], text);
    hide Concat;
  }

  lemma ExtendingStep(limit: nat, chunks: seq<Chunk>, s: Sink, e: Entry)
    requires chunks != [] && s.Open() && EndsWith(s, chunks[|chunks| - 1])
    requires |chunks[|chunks| - 1].Text()| <= limit
    ensures var last := chunks[|chunks| - 1];
            var text := last.Text() + e.text;
            && LogStep(limit, s, e, true).0 == Sink(s.files[last.name := text], s.current, |text|)
            && Extend(chunks, e.text)[|chunks| - 1].Text() == text
  {
    LastExtended(chunks, e.text);
    hide Extend, Chunk.Text;
  }

  lemma RewrittenHolds(chunks: seq<Chunk>, s: Sink, next: seq<Chunk>, text: string, after: Sink)
    requires HoldsChunks(chunks, s) && chunks != [] && |next| == |chunks|
    requires after == Sink(s.files[chunks[|chunks| - 1].name := text], s.current, |text|)
    requires forall i, j :: 0 <= i < j < |chunks| ==> chunks[i].name != chunks[j].name
    requires next[|next| - 1].name == chunks[|chunks| - 1].name && next[|next| - 1].Text() == text
    requires forall i :: 0 <= i < |chunks| - 1 ==> next[i] == chunks[i]
    ensures HoldsChunks(next, after)
  {
    hide Concat, Chunk.Text;
    forall i | 0 <= i < |next|
      ensures next[i].name in after.files && after.files[next[i].name] == next[i].Text()
    {
      if i < |next| - 1 {
        assert next[i] == chunks[i] && chunks[i].name != chunks[|chunks| - 1].name;
      }
    }
  }

  lemma RewrittenChunkAgrees(files: map<string, string>, chunks: seq<Chunk>, s: Sink,
                             next: seq<Chunk>, text: string)
    requires Agrees(files, chunks, s) && chunks != [] && |next| == |chunks|
    requires forall i, j :: 0 <= i < j < |chunks| ==> chunks[i].name != chunks[j].name
    requires forall i :: 0 <= i < |chunks| ==> next[i].name == chunks[i].name
    requires forall i :: 0 <= i < |chunks| - 1 ==> next[i] == chunks[i]
    requires next[|next| - 1].Text() == text
    requires forall n :: IsChunkName(next, n) <==> IsChunkName(chunks, n)
    ensures Agrees(files, next, Sink(s.files[chunks[|chunks| - 1].name := text], s.current, |text|))
  {
    var last := |chunks| - 1;
    var after := Sink(s.files[chunks[last].name := text], s.current, |text|);
    assert IsChunkName(chunks, chunks[last].name);
    hide Concat, IsChunkName, Chunk.Text;
    RewrittenHolds(chunks, s, next, text, after);
    assert OthersAsBefore(files, next, after) by {
      hide HoldsChunks, WritesLast;
    }
    hide HoldsChunks, OthersAsBefore;
  }

  lemma ExtendKeepsNames(chunks: seq<Chunk>, text: string)
    requires chunks != []
    ensures forall n :: IsChunkName(Extend(chunks, text), n) <==> IsChunkName(chunks, n)
  {
    var next := Extend(chunks, text);
    forall n
      ensures IsChunkName(next, n) <==> IsChunkName(chunks, n)
    {
      if i :| 0 <= i < |chunks| && chunks[i].name == n {
        assert next[i].name == n;
      }
    }
  }

  lemma ExtendedChunkAgrees(limit: nat, files: map<string, string>, chunks: seq<Chunk>, s: Sink, e: Entry)
    requires Agrees(files, chunks, s) && !StartsChunk(limit, chunks)
    requires forall i, j :: 0 <= i < j < |chunks| ==> chunks[i].name != chunks[j].name
    ensures Agrees(files, Extend(chunks, e.text), LogStep(limit, s, e, true).0)
  {
    hide *;
    AgreesAtTheEnd(limit, files, chunks, s);
    ExtendingStep(limit, chunks, s, e);
    var next, text := Extend(chunks, e.text), chunks[|chunks| - 1].Text() + e.text;
    ExtendKeepsNames(chunks, e.text);
    RewrittenChunkAgrees(files, chunks, s, next, text);
  }

  lemma AgreesAfterStep(limit: nat, files: map<string, string>, resumed: nat,
                        chunks: seq<Chunk>, s: Sink, e: Entry)
    requires Agrees(files, chunks, s) && resumed <= |chunks|
    requires FreshNames(files, resumed, AddRecord(limit, chunks, e))
    ensures FreshNames(files, resumed, chunks)
    ensures Agrees(files, AddRecord(limit, chunks, e), LogStep(limit, s, e, true).0)
  {
    var next := AddRecord(limit, chunks, e);
    assert forall i :: 0 <= i < |chunks| ==> next[i].name == chunks[i].name;
    hide Agrees;
    if StartsChunk(limit, chunks) {
      assert next[|chunks|].name == e.name;
      NewChunkAgrees(limit, files, chunks, s, e);
    } else {
      ExtendedChunkAgrees(limit, files, chunks, s, e);
    }
  }

  lemma FreshNamesBefore(limit: nat, files: map<string, string>, resumed: nat, chunks: seq<Chunk>, e: Entry)
    requires FreshNames(files, resumed, AddRecord(limit, chunks, e))
    ensures FreshNames(files, resumed, chunks)
  {
    var next := AddRecord(limit, chunks, e);
    assert forall i :: 0 <= i < |chunks| ==> next[i].name == chunks[i].name;
  }

  lemma ResumedAgrees(limit: nat, files: map<string, string>, last: Option<string>)
    requires last.Some? ==> last.value in files
    ensures Agrees(files, ResumedChunk(limit, files, last), Resumed(limit, files, last))
  {
    var resumed := ResumedChunk(limit, files, last);
    if resumed != [] {
      assert resumed[0].Text() == resumed[0].start;
      assert resumed[0].name == last.value;
    }
  }

  /** The byte counter and the open file follow the reference chunking: the
      directory holds exactly the reference chunks under their names. */
  lemma {:induction false} RunAgrees(limit: nat, files: map<string, string>, last: Option<string>,
                                     es: seq<Entry>)
    requires last.Some? ==> last.value in files
    requires FreshNames(files, |ResumedChunk(limit, files, last)|,
                        Chunking(limit, ResumedChunk(limit, files, last), es))
    ensures |ResumedChunk(limit, files, last)| <= |Chunking(limit, ResumedChunk(limit, files, last), es)|
    ensures Agrees(files, Chunking(limit, ResumedChunk(limit, files, last), es),
                   Run(limit, Resumed(limit, files, last), es))
  {
    var resumed := ResumedChunk(limit, files, last);
    if es == [] {
      ResumedAgrees(limit, files, last);
    } else {
      var init, e := es[..|es| - 1], es[|es| - 1];
      var before := Chunking(limit, resumed, init);
      assert Chunking(limit, resumed, es) == AddRecord(limit, before, e);
      assert Run(limit, Resumed(limit, files, last), es)
          == LogStep(limit, Run(limit, Resumed(limit, files, last), init), e, true).0;
      assert |before| <= |AddRecord(limit, before, e)|;
      hide *;
      FreshNamesBefore(limit, files, |resumed|, before, e);
      RunAgrees(limit, files, last, init);
      AgreesAfterStep(limit, files, |resumed|, before, Run(limit, Resumed(limit, files, last), init), e);
    }
  }

  // ---------- properties of the reference ----------

  /** Every chunk without its last record is within the limit, every chunk that was
      left behind is beyond it, and only the resumed chunk may hold no record. */
  ghost predicate Bounded(limit: nat, resumed: nat, chunks: seq<Chunk>) {
    && (forall i :: 0 <= i < |chunks| ==> |WithoutLastRecord(chunks[i])| <= limit)
    && (forall i :: 0 <= i < |chunks| - 1 ==> |chunks[i].Text()| > limit)
    && (forall i :: resumed <= i < |chunks| ==> chunks[i].start == "" && chunks[i].records != [])
  }

  lemma TotalsSnoc(chunks: seq<Chunk>, c: Chunk)
    ensures Records(chunks + [c]) == Records(chunks) + c.records
    ensures Concat(Contents(chunks + [c])) == Concat(Contents(chunks)) + c.Text()
  {
    var all := chunks + [c];
    assert all[..|all| - 1] == chunks;
    assert Contents(all) == Contents(chunks) + [c.Text()];
    ConcatSnoc(Contents(chunks), c.Text());
  }

  lemma SingleRecord(name: string, text: string)
    ensures Chunk(name, "", [text]).Text() == text
    ensures WithoutLastRecord(Chunk(name, "", [text])) == ""
  {
    var none: seq<string> := [];
    ConcatSnoc(none, text);
    assert none + [text] == [text] && [text][..0] == none;
  }

  lemma AddRecordTotals(limit: nat, chunks: seq<Chunk>, e: Entry)
    ensures Records(AddRecord(limit, chunks, e)) == Records(chunks) + [e.text]
    ensures Concat(Contents(AddRecord(limit, chunks, e))) == Concat(Contents(chunks)) + e.text
  {
    if StartsChunk(limit, chunks) {
      assert AddRecord(limit, chunks, e) == chunks + [Chunk(e.name, "", [e.text])];
      hide *;
      TotalsSnoc(chunks, Chunk(e.name, "", [e.text]));
      SingleRecord(e.name, e.text);
    } else {
      var front, last := chunks[..|chunks| - 1], chunks[|chunks| - 1];
      var grown := last.(records := last.records + [e.text]);
      assert chunks == front + [last] && AddRecord(limit, chunks, e) == front + [grown];
      hide *;
      TotalsSnoc(front, last);
      TotalsSnoc(front, grown);
      GrownChunk(last, e.text);
      Assoc(Concat(Contents(front)), last.Text(), e.text);
    }
  }

  lemma AddRecordKeepsBounds(limit: nat, resumed: nat, chunks: seq<Chunk>, e: Entry)
    requires Bounded(limit, resumed, chunks) && resumed <= |chunks|
    ensures Bounded(limit, resumed, AddRecord(limit, chunks, e))
  {
    hide Concat, WithoutLastRecord, Chunk.Text;
    if StartsChunk(limit, chunks) {
      SingleRecord(e.name, e.text);
    } else {
      GrownChunk(chunks[|chunks| - 1], e.text);
    }
    hide Concat, WithoutLastRecord;
    var next := AddRecord(limit, chunks, e);
    assert forall i :: 0 <= i < |next| - 1 && i < |chunks| - 1 ==> next[i] == chunks[i];
  }

  lemma ResumedIsBounded(limit: nat, files: map<string, string>, last: Option<string>)
    requires last.Some? ==> last.value in files
    ensures var resumed := ResumedChunk(limit, files, last);
            Bounded(limit, |resumed|, resumed) && Records(resumed) == []
  {
    var resumed := ResumedChunk(limit, files, last);
    if resumed != [] {
      assert resumed[..0] == [];
      assert Records(resumed[..0]) == [];
    }
  }

  lemma EmptyRun(limit: nat, resumed: seq<Chunk>)
    ensures Chunking(limit, resumed, []) == resumed
    ensures Texts([]) == []
    ensures Concat(Contents(resumed)) + Concat(Texts([])) == Concat(Contents(resumed))
  {
  }

  lemma ChunkingStep(limit: nat, resumed: seq<Chunk>, es: seq<Entry>)
    requires es != []
    ensures var init, e := es[..|es| - 1], es[|es| - 1];
            var before := Chunking(limit, resumed, init);
            && Chunking(limit, resumed, es) == AddRecord(limit, before, e)
            && Texts(es) == Texts(init) + [e.text]
            && |before| <= |AddRecord(limit, before, e)|
  {
  }

  /** No record is split or lost: the chunks hold the records in order, their texts
      concatenate to the recovered text plus all records, and each is bounded. */
  lemma {:induction false} ChunkingIsFaithful(limit: nat, files: map<string, string>, last: Option<string>,
                                              es: seq<Entry>)
    requires last.Some? ==> last.value in files
    ensures var resumed := ResumedChunk(limit, files, last);
            var chunks := Chunking(limit, resumed, es);
            && |resumed| <= |chunks|
            && Records(chunks) == Texts(es)
            && Concat(Contents(chunks)) == Concat(Contents(resumed)) + Concat(Texts(es))
            && Bounded(limit, |resumed|, chunks)
  {
    hide *;
    var resumed := ResumedChunk(limit, files, last);
    if es == [] {
      ResumedIsBounded(limit, files, last);
      EmptyRun(limit, resumed);
    } else {
      var init, e := es[..|es| - 1], es[|es| - 1];
      var before := Chunking(limit, resumed, init);
      ChunkingIsFaithful(limit, files, last, init);
      ChunkingStep(limit, resumed, es);
      AddRecordTotals(limit, before, e);
      AddRecordKeepsBounds(limit, |resumed|, before, e);
      ConcatSnoc(Texts(init), e.text);
      Assoc(Concat(Contents(resumed)), Concat(Texts(init)), e.text);
    }
  }

  // ---------- failed opens ----------

  /** An attempt to log: the record and whether opening a file would succeed. */
  datatype Attempt = Attempt(e: Entry, openOk: bool)

  function RunAttempts(limit: nat, s: Sink, attempts: seq<Attempt>): (r: Sink)
    requires s.Open()
    ensures r.Open()
  {
    if attempts == [] then s
    else
      var a := attempts[|attempts| - 1];
      LogStep(limit, RunAttempts(limit, s, attempts[..|attempts| - 1]), a.e, a.openOk).0
  }

  function OutcomeOf(limit: nat, s: Sink, attempts: seq<Attempt>, i: nat): Outcome
    requires s.Open() && i < |attempts|
  {
    LogStep(limit, RunAttempts(limit, s, attempts[..i]), attempts[i].e, attempts[i].openOk).1
  }

  /** Opening failed while a full chunk was being left behind. */
  ghost predicate RotationFailed(limit: nat, s: Sink, attempts: seq<Attempt>, i: nat)
    requires s.Open() && i < |attempts|
  {
    && OutcomeOf(limit, s, attempts, i) == OpenFailed
    && RunAttempts(limit, s, attempts[..i]).count > limit
  }

  /** The counter is beyond the limit but no file is open: the next call closes nil. */
  predicate Broken(limit: nat, s: Sink) {
    s.current.None? && s.count > limit
  }

  lemma BreaksAtFailedRotation(limit: nat, s: Sink, e: Entry, openOk: bool)
    requires s.Open()
    ensures var (after, outcome) := LogStep(limit, s, e, openOk);
            && (outcome == Crashed <==> Broken(limit, s))
            && (Broken(limit, after) <==> Broken(limit, s) || (outcome == OpenFailed && s.count > limit))
  {
  }

  lemma {:induction false} BrokenExactly(limit: nat, s: Sink, attempts: seq<Attempt>)
    requires s.Open() && !Broken(limit, s)
    ensures Broken(limit, RunAttempts(limit, s, attempts))
            <==> exists i :: 0 <= i < |attempts| && RotationFailed(limit, s, attempts, i)
  {
    if attempts != [] {
      var k := |attempts| - 1;
      var init := attempts[..k];
      BrokenExactly(limit, s, init);
      BreaksAtFailedRotation(limit, RunAttempts(limit, s, init), attempts[k].e, attempts[k].openOk);
      forall i | 0 <= i < k
        ensures RotationFailed(limit, s, attempts, i) <==> RotationFailed(limit, s, init, i)
      {
        assert init[..i] == attempts[..i];
      }
      if Broken(limit, RunAttempts(limit, s, attempts)) {
        if i :| 0 <= i < k && RotationFailed(limit, s, init, i) {
          assert RotationFailed(limit, s, attempts, i);
        } else {
          assert RotationFailed(limit, s, attempts, k);
        }
      }
    }
  }

  /** A call crashes exactly when some earlier rotation failed to open its file: one
      failed rotation makes every later call close a nil writer, whereas a failed
      first open is simply tried again. */
  lemma CrashExactly(limit: nat, s: Sink, attempts: seq<Attempt>, e: Entry, openOk: bool)
    requires s.Open() && !Broken(limit, s)
    ensures LogStep(limit, RunAttempts(limit, s, attempts), e, openOk).1 == Crashed
            <==> exists i :: 0 <= i < |attempts| && RotationFailed(limit, s, attempts, i)
  {
    BreaksAtFailedRotation(limit, RunAttempts(limit, s, attempts), e, openOk);
    BrokenExactly(limit, s, attempts);
  }

  /** It does happen: from a handler without an open file, a first record beyond the limit
      and then one file that cannot be opened make every later record crash. */
  lemma OneFailedRotation(limit: nat, s: Sink, long: Entry, unlucky: Entry, later: seq<Attempt>, e: Entry, openOk: bool)
    requires s.Open() && s.current.None? && s.count <= limit && |long.text| > limit
    ensures RotationFailed(limit, s, [Attempt(long, true), Attempt(unlucky, false)] + later, 1)
    ensures LogStep(limit, RunAttempts(limit, s, [Attempt(long, true), Attempt(unlucky, false)] + later), e, openOk).1 == Crashed
  {
    var two := [Attempt(long, true), Attempt(unlucky, false)];
    var all := two + later;
    assert two[..1][..0] == [] && all[..1] == two[..1];
    assert RunAttempts(limit, s, all[..1]).count > limit;
    assert RotationFailed(limit, s, all, 1);
    CrashExactly(limit, s, all, e, openOk);
  }
}
