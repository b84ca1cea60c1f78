/** The printer and the file recovery together: what a restart makes of a log whose last
    write was interrupted at some byte. */
module LogRecovery {
  import opened Wrappers
  import opened Lines
  import opened Logfmt
  import opened LogfmtDecoder
  import Utf8
  import LogFile

  /** The bytes of a session's lines. */
  function Written(padding: Padding, records: seq<Record>): (lines: seq<string>)
    ensures |lines| == |records|
  {
    Utf8.EncodeAll(Session(padding, records))
  }

  lemma NewlineInLines(lines: seq<string>, torn: string)
    requires '\n' !in torn && forall l :: l in lines ==> OneLine(l)
    ensures '\n' in Concat(lines) + torn <==> lines != []
  {
    if lines != [] {
      var last := lines[|lines| - 1];
      assert OneLine(last) && last[|last| - 1] in Concat(lines) + torn;
    }
  }

  /** The bytes are those of a line that decodes to this record. */
  predicate ReadsBack(bytes: string, r: Record) {
    var line := Utf8.Decode(bytes);
    line.Some? && DecodeLine(line.value) == Some(RecordFields(r))
  }

  lemma WrittenText(padding: Padding, records: seq<Record>)
    ensures Utf8.Encode(Concat(Session(padding, records))) == Concat(Written(padding, records))
  {
    hide Session, Utf8.Encode, Concat;
    Utf8.EncodeOfConcat(Session(padding, records));
  }

  lemma WrittenLine(padding: Padding, records: seq<Record>, i: nat)
    requires i < |records| && forall r :: r in records ==> CleanKeys(r.ctx)
    ensures OneLine(Written(padding, records)[i]) && ReadsBack(Written(padding, records)[i], records[i])
  {
    var line := Session(padding, records)[i];
    assert Written(padding, records)[i] == Utf8.Encode(line);
    hide OneLine, CleanKeys, Session, RecordFields, DecodeLine;
    SessionRoundTrip(padding, records);
    assert line in Session(padding, records);
    Utf8.LinesStay(line);
    Utf8.DecodeOfEncode(line);
  }

  lemma ConcatOfOneMore(lines: seq<string>, k: nat)
    requires k < |lines|
    ensures Concat(lines[..k + 1]) == Concat(lines[..k]) + lines[k]
  {
    assert lines[..k + 1][..k] == lines[..k];
  }

  lemma LineIsNotEmpty(line: string)
    requires OneLine(line)
    ensures line != ""
  {
  }

  /** However many bytes of a session reached the file, even if the last rune is torn,
      recovery keeps the longest sequence of completely written records, and each of
      them decodes. */
  lemma InterruptedSessionRecovers(padding: Padding, records: seq<Record>, written: string)
    returns (k: nat)
    requires forall r :: r in records ==> CleanKeys(r.ctx)
    requires written <= Utf8.Encode(Concat(Session(padding, records)))
    ensures k <= |records|
    ensures Concat(Written(padding, records)[..k]) <= written
    ensures k < |records| ==> |written| < |Concat(Written(padding, records)[..k + 1])|
    ensures '\n' in written <==> k > 0
    ensures CompletePart(written) == Concat(Written(padding, records)[..k])
    ensures var kept := SplitLines(CompletePart(written));
            && kept.1 == "" && |kept.0| == k
            && forall i :: 0 <= i < k ==> ReadsBack(kept.0[i], records[i])
  {
    hide *;
    var lines := Written(padding, records);
    WrittenText(padding, records);
    forall i | 0 <= i < |records|
      ensures OneLine(lines[i]) && ReadsBack(lines[i], records[i])
    {
      WrittenLine(padding, records, i);
    }
    var torn;
    k, torn := PrefixOfLines(lines, written);
    assert forall l :: l in lines[..k] ==> l in lines;
    CompletePartOfLines(lines[..k], torn);
    SplitLinesRoundTrip(lines[..k], "");
    assert Concat(lines[..k]) + "" == Concat(lines[..k]);
    if k < |lines| {
      ConcatOfOneMore(lines, k);
      assert lines[k] in lines;
      LineIsNotEmpty(lines[k]);
    }
    NewlineInLines(lines[..k], torn);
  }

  /** A handler started again on the chunk of an interrupted session: it starts if and only
      if one record is complete, and then goes on behind the complete ones. Otherwise, as
      with a chunk that was created and not yet written to, it does not start. */
  method Restart(h: LogFile.RotatingFile, listing: seq<LogFile.DirEntry>, ghost padding: Padding,
                 ghost records: seq<Record>) returns (r: Result<()>, ghost k: nat)
    requires h.Valid() && h.w == None && h.count == 0
    requires forall d :: d in listing && d.regular ==> d.name in h.files
    requires LogFile.LastLog(listing).Some?
    requires forall r :: r in records ==> CleanKeys(r.ctx)
    requires var chunk := h.files[LogFile.LastLog(listing).value];
             |chunk| < h.limit && chunk <= Utf8.Encode(Concat(Session(padding, records)))
    modifies h
    ensures var name := LogFile.LastLog(listing).value;
            var torn, complete := old(h.files)[name], Written(padding, records);
            && k <= |records| && Concat(complete[..k]) <= torn
            && (k < |records| ==> |torn| < |Concat(complete[..k + 1])|)
            && (r.Ok? <==> k > 0)
            && (r.Ok? ==> h.State() == LogFile.Sink(old(h.files)[name := Concat(complete[..k])], Some(name),
                                                    |Concat(complete[..k])|))
            && (r.Err? ==> h.State() == old(h.State()))
  {
    ghost var chunk := h.files[LogFile.LastLog(listing).value];
    hide LogFile.LastLog;
    k := InterruptedSessionRecovers(padding, records, chunk);
    r := h.Start(listing);
  }
}
