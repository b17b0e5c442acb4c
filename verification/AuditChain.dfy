/**
 The hash-chained audit log: appending, resuming after a restart, and verifying one day's file
 (internal/mcp/audit.go).
 */
module AuditChain {

  /** The entry without its chain fields: each key with the JSON text of its value. */
  type Fields = map<string, string>

  /** One decoded line. A missing chain field reads as 0 or "". */
  datatype Record = Record(seqNo: int, prev: string, hash: string, payload: Fields)

  /** What the line scanner meets: a line beyond its 1 MiB buffer ends the scan. */
  datatype Line = Blank | Garbage | TooLong | Entry(rec: Record)

  /** SHA-256 in hexadecimal, canonicalJSON, and whether an encoded entry fits the scanner's buffer. */
  datatype Codec = Codec(hash: string -> string, canon: Fields -> string, fits: Record -> bool)

  const CHAIN_KEYS: set<string> := {"seq", "prev", "hash"}

  function Digest(c: Codec, prev: string, payload: Fields): string {
    c.hash(prev + "\n" + c.canon(payload))
  }

  /** No two texts collide; digests are non-empty and have no line break; different payloads encode differently. */
  ghost predicate CollisionFree(c: Codec) {
    && (forall s, t :: c.hash(s) == c.hash(t) ==> s == t)
    && (forall s :: c.hash(s) != "" && '\n' !in c.hash(s))
    && (forall p, q :: c.canon(p) == c.canon(q) ==> p == q)
  }

  // ---------------------------------------------------------------- chains

  function Scanned(lines: seq<Line>): seq<Line> {
    if lines == [] || lines[0].TooLong? then [] else [lines[0]] + Scanned(lines[1..])
  }

  function Entries(lines: seq<Line>): seq<Record> {
    if lines == [] then []
    else Entries(lines[..|lines| - 1]) + if lines[|lines| - 1].Entry? then [lines[|lines| - 1].rec] else []
  }

  function Tip(rs: seq<Record>): string {
    if rs == [] then "" else rs[|rs| - 1].hash
  }

  predicate Links(c: Codec, prev: string, position: nat, r: Record) {
    r.hash != "" && r.prev == prev && r.seqNo == position && r.hash == Digest(c, prev, r.payload)
  }

  predicate Chain(c: Codec, rs: seq<Record>) {
    rs == [] || (Chain(c, rs[..|rs| - 1]) && Links(c, Tip(rs[..|rs| - 1]), |rs|, rs[|rs| - 1]))
  }

  /** The link at any position of a chain. */
  lemma {:induction false} LinkAt(c: Codec, rs: seq<Record>, i: nat)
    requires Chain(c, rs) && i < |rs|
    ensures Links(c, Tip(rs[..i]), i + 1, rs[i])
  {
    if i < |rs| - 1 {
      LinkAt(c, rs[..|rs| - 1], i);
      assert rs[..|rs| - 1][..i] == rs[..i];
    }
  }

  predicate Clean(lines: seq<Line>) {
    forall i :: 0 <= i < |lines| ==> lines[i].Blank? || lines[i].Entry?
  }

  /** Every line is blank or the next link. */
  predicate Verifies(c: Codec, lines: seq<Line>) {
    Clean(lines) && Chain(c, Entries(lines))
  }

  lemma {:induction false} CleanSnoc(lines: seq<Line>, l: Line)
    ensures Clean(lines + [l]) <==> Clean(lines) && (l.Blank? || l.Entry?)
  {
    assert forall i :: 0 <= i < |lines| ==> (lines + [l])[i] == lines[i];
    assert (lines + [l])[|lines|] == l;
  }

  lemma {:induction false} EntriesSnoc(lines: seq<Line>, l: Line)
    ensures Entries(lines + [l]) == Entries(lines) + if l.Entry? then [l.rec] else []
  {
    assert (lines + [l])[..|lines|] == lines;
  }

  lemma {:induction false} ChainSnoc(c: Codec, rs: seq<Record>, r: Record)
    ensures Chain(c, rs + [r]) <==> Chain(c, rs) && Links(c, Tip(rs), |rs| + 1, r)
  {
    assert (rs + [r])[..|rs|] == rs;
  }

  lemma {:induction false} VerifiesSnoc(c: Codec, lines: seq<Line>, l: Line)
    ensures Verifies(c, lines + [l]) <==>
            Verifies(c, lines) && (l.Blank? || (l.Entry? && Links(c, Tip(Entries(lines)), |Entries(lines)| + 1, l.rec)))
  {
    EntriesSnoc(lines, l);
    CleanSnoc(lines, l);
    assert Entries(lines) + [] == Entries(lines);
    if l.Entry? { ChainSnoc(c, Entries(lines), l.rec); }
  }

  lemma {:induction false} VerifiesPrefix(c: Codec, lines: seq<Line>, k: nat)
    requires k <= |lines| && Verifies(c, lines)
    ensures Verifies(c, lines[..k])
    decreases |lines| - k
  {
    if k < |lines| {
      VerifiesPrefix(c, lines, k + 1);
      assert lines[..k + 1] == lines[..k] + [lines[k]];
      VerifiesSnoc(c, lines[..k], lines[k]);
    } else {
      assert lines[..k] == lines;
    }
  }

  lemma {:induction false} ScannedIsPrefix(lines: seq<Line>)
    ensures |Scanned(lines)| <= |lines| && Scanned(lines) == lines[..|Scanned(lines)|]
    ensures |Scanned(lines)| < |lines| ==> lines[|Scanned(lines)|].TooLong?
    ensures forall l :: l in Scanned(lines) ==> !l.TooLong?
  {
    if lines != [] && !lines[0].TooLong? { ScannedIsPrefix(lines[1..]); }
  }

  lemma {:induction false} ScannedConcat(a: seq<Line>, b: seq<Line>)
    ensures Scanned(a + b) == if TooLong in a then Scanned(a) else a + Scanned(b)
  {
    if a == [] {
      assert a + b == b;
    } else {
      assert (a + b)[1..] == a[1..] + b;
      ScannedConcat(a[1..], b);
      assert TooLong in a <==> a[0] == TooLong || TooLong in a[1..];
    }
  }

  // ---------------------------------------------------------------- verification

  datatype Reason = InvalidJson | NoHash | PrevMismatch | SeqGap | ContentMismatch

  datatype Verdict = Intact(entries: nat, tip: string) | Broken(verified: nat, line: nat, reason: Reason)

  /** The checks made on one decoded entry, in order. */
  function FirstProblem(c: Codec, prev: string, expected: nat, r: Record): (p: seq<Reason>)
    ensures p == [] <==> Links(c, prev, expected, r)
  {
    if r.hash == "" then [NoHash]
    else if r.prev != prev then [PrevMismatch]
    else if r.seqNo != expected then [SeqGap]
    else if Digest(c, prev, r.payload) != r.hash then [ContentMismatch]
    else []
  }

  /** Why a line that is no link is refused: it is no JSON object, or the first check that fails on its entry. */
  predicate RightReason(c: Codec, before: seq<Record>, l: Line, reason: Reason) {
    if l.Entry? then FirstProblem(c, Tip(before), |before| + 1, l.rec) == [reason] else reason == InvalidJson
  }

  /** The verdict names the longest verified prefix: everything scanned, or all before the first bad line and what is
      wrong with that line. */
  ghost predicate RightVerdict(c: Codec, lines: seq<Line>, v: Verdict) {
    var scanned := Scanned(lines);
    match v
    case Intact(entries, tip) =>
      Verifies(c, scanned) && entries == |Entries(scanned)| && tip == Tip(Entries(scanned))
    case Broken(verified, line, reason) =>
      && 1 <= line <= |scanned|
      && Verifies(c, scanned[..line - 1]) && verified == |Entries(scanned[..line - 1])|
      && RightReason(c, Entries(scanned[..line - 1]), scanned[line - 1], reason)
      && forall k :: line <= k <= |scanned| ==> !Verifies(c, scanned[..k])
  }

  lemma {:induction false} PrefixOfPrefix(c: Codec, s: seq<Line>, i: nat, k: nat)
    requires i <= k <= |s| && Verifies(c, s[..k])
    ensures Verifies(c, s[..i])
  {
    VerifiesPrefix(c, s[..k], i);
    assert s[..k][..i] == s[..i];
  }

  lemma {:induction false} BrokenAt(c: Codec, lines: seq<Line>, i: nat)
    requires i < |Scanned(lines)| && !Verifies(c, Scanned(lines)[..i + 1])
    ensures forall k :: i + 1 <= k <= |Scanned(lines)| ==> !Verifies(c, Scanned(lines)[..k])
  {
    var s := Scanned(lines);
    forall k | i + 1 <= k <= |s| ensures !Verifies(c, s[..k]) {
      if Verifies(c, s[..k]) { PrefixOfPrefix(c, s, i + 1, k); }
    }
  }

  ghost predicate Reached(c: Codec, done: seq<Line>, prev: string, entries: nat) {
    Verifies(c, done) && entries == |Entries(done)| && prev == Tip(Entries(done))
  }

  lemma {:induction false} NextLine(c: Codec, s: seq<Line>, i: nat, prev: string, entries: nat)
    requires i < |s| && Reached(c, s[..i], prev, entries)
    ensures s[i].Blank? ==> Reached(c, s[..i + 1], prev, entries)
    ensures s[i].Entry? && Links(c, prev, entries + 1, s[i].rec) ==> Reached(c, s[..i + 1], s[i].rec.hash, entries + 1)
    ensures Verifies(c, s[..i + 1]) <==> s[i].Blank? || (s[i].Entry? && Links(c, prev, entries + 1, s[i].rec))
  {
    assert s[..i + 1] == s[..i] + [s[i]];
    EntriesSnoc(s[..i], s[i]);
    VerifiesSnoc(c, s[..i], s[i]);
  }

  /** What the loop has found when a line is no link. */
  lemma {:induction false} FoundBroken(c: Codec, lines: seq<Line>, i: nat, prev: string, entries: nat, reason: Reason)
    requires i < |Scanned(lines)| && Reached(c, Scanned(lines)[..i], prev, entries)
    requires !Verifies(c, Scanned(lines)[..i + 1])
    requires var l := Scanned(lines)[i];
             if l.Entry? then FirstProblem(c, prev, entries + 1, l.rec) == [reason] else reason == InvalidJson
    ensures RightVerdict(c, lines, Broken(entries, i + 1, reason))
  {
    hide FirstProblem, Scanned, Verifies, Tip, Entries;
    BrokenAt(c, lines, i);
  }

  lemma {:induction false} FoundIntact(c: Codec, lines: seq<Line>, prev: string, entries: nat)
    requires Reached(c, Scanned(lines), prev, entries)
    ensures RightVerdict(c, lines, Intact(entries, prev))
  {
  }

  /** VerifyAuditChain on the lines of one file. */
  method VerifyAuditChain(c: Codec, lines: seq<Line>) returns (v: Verdict)
    ensures RightVerdict(c, lines, v)
  {
    hide RightVerdict, Reached, Verifies, Scanned;
    ghost var s := Scanned(lines);
    ScannedIsPrefix(lines);
    NothingReached(c, s);
    var prev := "";
    var expectedSeq: nat := 1;
    var entries: nat := 0;
    var i := 0;
    while i < |lines| && !lines[i].TooLong?
      invariant 0 <= i <= |s| && Reached(c, s[..i], prev, entries) && expectedSeq == entries + 1
    {
      NextLine(c, s, i, prev, entries);
      assert s[i] == lines[i];
      match lines[i] {
        case Blank =>
        case Garbage =>
          FoundBroken(c, lines, i, prev, entries, InvalidJson);
          return Broken(entries, i + 1, InvalidJson);
        case Entry(r) =>
          var problem := FirstProblem(c, prev, expectedSeq, r);
          if problem != [] {
            FoundBroken(c, lines, i, prev, entries, problem[0]);
            return Broken(entries, i + 1, problem[0]);
          }
          prev := r.hash;
          expectedSeq := expectedSeq + 1;
          entries := entries + 1;
      }
      i := i + 1;
    }
    assert s[..i] == s;
    FoundIntact(c, lines, prev, entries);
    return Intact(entries, prev);
  }

  lemma {:induction false} NothingReached(c: Codec, s: seq<Line>)
    ensures Reached(c, s[..0], "", 0)
  {
  }

  // ---------------------------------------------------------------- tamper evidence

  lemma {:induction false} FirstBreak(a: string, p: string)
    requires '\n' !in a
    ensures var s := a + "\n" + p;
            s[|a|] == '\n' && (forall i :: 0 <= i < |a| ==> s[i] != '\n') && s[..|a|] == a && s[|a| + 1..] == p
  {
    var s := a + "\n" + p;
    assert forall i :: 0 <= i < |a| ==> s[i] == a[i];
  }

  /** The text before and after the first line break are recovered from the whole. */
  lemma {:induction false} SplitAtLineBreak(a: string, b: string, p: string, q: string)
    requires '\n' !in a && '\n' !in b && a + "\n" + p == b + "\n" + q
    ensures a == b && p == q
  {
    FirstBreak(a, p);
    FirstBreak(b, q);
  }

  lemma {:induction false} DigestInjective(c: Codec, a: string, p: Fields, b: string, q: Fields)
    requires CollisionFree(c) && '\n' !in a && '\n' !in b && Digest(c, a, p) == Digest(c, b, q)
    ensures a == b && p == q
  {
    assert a + "\n" + c.canon(p) == b + "\n" + c.canon(q);
    SplitAtLineBreak(a, b, c.canon(p), c.canon(q));
  }

  lemma {:induction false} TipHasNoLineBreak(c: Codec, rs: seq<Record>)
    requires CollisionFree(c) && Chain(c, rs)
    ensures '\n' !in Tip(rs) && (Tip(rs) == "" <==> rs == [])
  {
  }

  /** A tip hash pins the whole history: chains that end in the same hash are equal record for record. */
  lemma {:induction false} SameTipSameHistory(c: Codec, a: seq<Record>, b: seq<Record>)
    requires CollisionFree(c) && Chain(c, a) && Chain(c, b) && Tip(a) == Tip(b)
    ensures a == b
    decreases |a|
  {
    TipHasNoLineBreak(c, a);
    TipHasNoLineBreak(c, b);
    if a != [] {
      var a', b', x, y := a[..|a| - 1], b[..|b| - 1], a[|a| - 1], b[|b| - 1];
      TipHasNoLineBreak(c, a');
      TipHasNoLineBreak(c, b');
      DigestInjective(c, Tip(a'), x.payload, Tip(b'), y.payload);
      SameTipSameHistory(c, a', b');
      assert a == a' + [x] && b == b' + [y];
    }
  }

  /** Any chain made of records of a valid chain, in any order and with any repetition, is a prefix of it. */
  lemma {:induction false} DrawnChainIsPrefix(c: Codec, full: seq<Record>, drawn: seq<Record>)
    requires Chain(c, full) && Chain(c, drawn)
    requires forall r :: r in drawn ==> r in full
    ensures drawn <= full
  {
    forall i | 0 <= i < |drawn| ensures i < |full| && drawn[i] == full[i] {
      LinkAt(c, drawn, i);
      assert drawn[i] in full;
      var k :| 0 <= k < |full| && full[k] == drawn[i];
      LinkAt(c, full, k);
    }
    if drawn != [] { assert drawn[|drawn| - 1] in drawn; }
  }

  /** Tamper evidence for files: two that verify with the same tip hold the same entries. */
  lemma {:induction false} SameTipSameFile(c: Codec, a: seq<Line>, b: seq<Line>, va: Verdict, vb: Verdict)
    requires CollisionFree(c) && RightVerdict(c, a, va) && RightVerdict(c, b, vb)
    requires va.Intact? && vb.Intact? && va.tip == vb.tip
    ensures Entries(Scanned(a)) == Entries(Scanned(b)) && va.entries == vb.entries
    ensures TooLong !in a && TooLong !in b ==> Entries(a) == Entries(b)
  {
    SameTipSameHistory(c, Entries(Scanned(a)), Entries(Scanned(b)));
    ScannedIsPrefix(a);
    ScannedIsPrefix(b);
    assert TooLong !in a ==> Scanned(a) == a by { if TooLong !in a { ScannedConcat(a, []); assert a + [] == a; } }
    assert TooLong !in b ==> Scanned(b) == b by { if TooLong !in b { ScannedConcat(b, []); assert b + [] == b; } }
  }

  lemma {:induction false} ScannedTwice(lines: seq<Line>)
    ensures Scanned(Scanned(lines)) == Scanned(lines) && TooLong !in Scanned(lines)
  {
    ScannedIsPrefix(lines);
    ScannedConcat(Scanned(lines), []);
    assert Scanned(lines) + [] == Scanned(lines);
  }

  /** A file that verifies with the given tip and can be scanned to its end. */
  predicate WholeWithTip(c: Codec, lines: seq<Line>, tip: string) {
    TooLong !in lines && Verifies(c, lines) && Tip(Entries(lines)) == tip
  }

  /** Remembering the tip of an intact file pins all its entries if and only if none of them is behind an over-long
      line. */
  lemma {:induction false} TipPinsFileExactly(c: Codec, a: seq<Line>, v: Verdict)
    requires CollisionFree(c) && RightVerdict(c, a, v) && v.Intact?
    ensures (forall b :: WholeWithTip(c, b, v.tip) ==> Entries(b) == Entries(a)) <==> Entries(a) == Entries(Scanned(a))
  {
    ScannedTwice(a);
    assert WholeWithTip(c, Scanned(a), v.tip);
    forall b | WholeWithTip(c, b, v.tip) ensures Entries(b) == Entries(Scanned(a)) {
      SameTipSameHistory(c, Entries(b), Entries(Scanned(a)));
    }
  }

  /** Only the part before the first over-long line is protected: whatever follows it, the verdict is the same and a
      restart resumes from the same tip. */
  lemma {:induction false} LongLineEndsProtection(c: Codec, lines: seq<Line>, rest: seq<Line>, rest': seq<Line>,
                                                  v: Verdict)
    ensures RightVerdict(c, lines + [TooLong] + rest, v) <==> RightVerdict(c, lines + [TooLong] + rest', v)
    ensures LastTip(Scanned(lines + [TooLong] + rest)) == LastTip(Scanned(lines + [TooLong] + rest'))
  {
    assert TooLong in lines + [TooLong] by { assert (lines + [TooLong])[|lines|] == TooLong; }
    ScannedConcat(lines + [TooLong], rest);
    ScannedConcat(lines + [TooLong], rest');
  }

  // ---------------------------------------------------------------- writing

  datatype TipRec = TipRec(seqNo: int, hash: string)

  function LastTip(lines: seq<Line>): TipRec {
    if lines == [] then TipRec(0, "")
    else var l := lines[|lines| - 1];
         if l.Entry? && l.rec.hash != "" then TipRec(l.rec.seqNo, l.rec.hash) else LastTip(lines[..|lines| - 1])
  }

  /** lastAuditTip: the last well-formed entry the scanner reaches. */
  method LastAuditTip(lines: seq<Line>) returns (last: TipRec)
    ensures last == LastTip(Scanned(lines))
  {
    ScannedIsPrefix(lines);
    ghost var s := Scanned(lines);
    last := TipRec(0, "");
    var i := 0;
    while i < |lines| && !lines[i].TooLong?
      invariant 0 <= i <= |s| && last == LastTip(s[..i])
    {
      assert s[..i + 1][..i] == s[..i] && s[i] == lines[i];
      if lines[i].Entry? && lines[i].rec.hash != "" {
        last := TipRec(lines[i].rec.seqNo, lines[i].rec.hash);
      }
      i := i + 1;
    }
    assert s[..i] == s;
  }

  /** Resuming from disk finds the end of the chain. */
  lemma {:induction false} LastTipOfChain(c: Codec, lines: seq<Line>)
    requires Verifies(c, lines)
    ensures LastTip(lines) == TipRec(|Entries(lines)|, Tip(Entries(lines)))
  {
    if lines != [] {
      var init, l := lines[..|lines| - 1], lines[|lines| - 1];
      assert lines == init + [l];
      VerifiesSnoc(c, init, l);
      LastTipOfChain(c, init);
    }
  }

  function NextRecord(c: Codec, tip: TipRec, payload: Fields): Record {
    Record(tip.seqNo + 1, tip.hash, Digest(c, tip.hash, payload), payload)
  }

  function Encoded(c: Codec, r: Record): Line {
    if c.fits(r) then Entry(r) else TooLong
  }

  function FileOf(files: map<string, seq<Line>>, path: string): seq<Line> {
    if path in files then files[path] else []
  }

  /** The remembered tip of a file, or the one read back from disk after a restart. */
  function Resume(files: map<string, seq<Line>>, tips: map<string, TipRec>, path: string): TipRec {
    if path in tips then tips[path] else LastTip(Scanned(FileOf(files, path)))
  }

  /** A file verifies; while it has no over-long line, resuming continues at the end of its chain. */
  ghost predicate FileOk(c: Codec, files: map<string, seq<Line>>, tips: map<string, TipRec>, path: string) {
    && Verifies(c, Scanned(FileOf(files, path)))
    && (TooLong !in FileOf(files, path) ==> Resume(files, tips, path) == LastTip(FileOf(files, path)))
  }

  lemma {:induction false} AppendKeepsFiles(c: Codec, files: map<string, seq<Line>>, tips: map<string, TipRec>,
                                            path: string, payload: Fields)
    requires CollisionFree(c) && FileOk(c, files, tips, path)
    ensures var next := NextRecord(c, Resume(files, tips, path), payload);
            FileOk(c, files[path := FileOf(files, path) + [Encoded(c, next)]],
                   tips[path := TipRec(next.seqNo, next.hash)], path)
  {
    AppendKeepsFile(c, FileOf(files, path), NextRecord(c, Resume(files, tips, path), payload), payload);
  }

  lemma {:induction false} FileOkAfterRestart(c: Codec, files: map<string, seq<Line>>, tips: map<string, TipRec>,
                                              path: string)
    requires FileOk(c, files, tips, path)
    ensures FileOk(c, files, map[], path)
  {
    if TooLong !in FileOf(files, path) { ScannedWhole(FileOf(files, path)); }
  }

  /** The server's audit state: the day files on disk and the tips remembered in memory. */
  class AuditLog {
    const codec: Codec
    var files: map<string, seq<Line>>
    var tips: map<string, TipRec>

    ghost predicate Valid()
      reads this
    {
      forall path :: FileOk(codec, files, tips, path)
    }

    constructor (codec: Codec)
      ensures this.codec == codec && files == map[] && tips == map[] && Valid()
    {
      this.codec := codec;
      files, tips := map[], map[];
    }

    /** appendAudit; `written` tells whether encoding, opening and writing succeeded. */
    method AppendAudit(path: string, entry: Fields, written: bool)
      requires CollisionFree(codec) && Valid()
      modifies this
      ensures Valid()
      ensures !written ==> files == old(files) && tips == old(tips)
      ensures var next := NextRecord(codec, Resume(old(files), old(tips), path), entry - CHAIN_KEYS);
              written ==> files == old(files)[path := FileOf(old(files), path) + [Encoded(codec, next)]]
      ensures var next := NextRecord(codec, Resume(old(files), old(tips), path), entry - CHAIN_KEYS);
              written ==> tips == old(tips)[path := TipRec(next.seqNo, next.hash)]
    {
      var file := FileOf(files, path);
      var tip;
      if path in tips {
        tip := tips[path];
      } else {
        tip := LastAuditTip(file);
      }
      var payload := entry - CHAIN_KEYS;
      var next := NextRecord(codec, tip, payload);
      if !written {
        return;
      }
      AppendKeepsFiles(codec, files, tips, path, payload);
      files := files[path := file + [Encoded(codec, next)]];
      tips := tips[path := TipRec(next.seqNo, next.hash)];
      forall other ensures FileOk(codec, files, tips, other) {
        if other != path { assert old(FileOk(codec, files, tips, other)); }
      }
    }

    /** A restart forgets the remembered tips. */
    method Restart()
      requires Valid()
      modifies this`tips
      ensures Valid() && tips == map[]
    {
      forall path ensures FileOk(codec, files, map[], path) { FileOkAfterRestart(codec, files, tips, path); }
      tips := map[];
    }

    /** Verifying any day's file of a running log never reports a break. */
    method Verify(path: string) returns (v: Verdict)
      requires Valid()
      ensures v.Intact? && v.entries == |Entries(Scanned(FileOf(files, path)))|
      ensures TooLong !in FileOf(files, path) ==> v.entries == |Entries(FileOf(files, path))|
    {
      var file := FileOf(files, path);
      v := VerifyAuditChain(codec, file);
      assert FileOk(codec, files, tips, path);
      assert Scanned(file)[..|Scanned(file)|] == Scanned(file);
      if TooLong !in file { ScannedWhole(file); }
    }
  }

  lemma {:induction false} ScannedNothing(lines: seq<Line>)
    requires lines != [] && lines[0].TooLong?
    ensures Scanned(lines) == []
  {
  }

  lemma {:induction false} ScannedWhole(lines: seq<Line>)
    requires TooLong !in lines
    ensures Scanned(lines) == lines
  {
    ScannedConcat(lines, []);
    assert lines + [] == lines;
  }

  lemma {:induction false} AppendKeepsFile(c: Codec, file: seq<Line>, next: Record, payload: Fields)
    requires CollisionFree(c) && Verifies(c, Scanned(file))
    requires TooLong !in file ==> next == NextRecord(c, LastTip(file), payload)
    ensures Verifies(c, Scanned(file + [Encoded(c, next)]))
    ensures TooLong !in file + [Encoded(c, next)] ==>
              LastTip(file + [Encoded(c, next)]) == TipRec(next.seqNo, next.hash)
  {
    hide Verifies, Entries, Scanned;
    var line := Encoded(c, next);
    if TooLong in file {
      ScannedConcat(file, [line]);
      assert TooLong in file + [line];
    } else {
      ScannedWhole(file);
      AppendLinks(c, file, next, payload);
      if line.TooLong? {
        ScannedConcat(file, [line]);
        assert Scanned([line]) == [] by { ScannedNothing([line]); }
        assert file + [] == file;
        assert line in file + [line];
      } else {
        ScannedWhole(file + [line]);
        assert (file + [line])[..|file|] == file;
      }
    }
  }

  lemma {:induction false} AppendLinks(c: Codec, file: seq<Line>, next: Record, payload: Fields)
    requires CollisionFree(c) && Verifies(c, file) && next == NextRecord(c, LastTip(file), payload)
    ensures Verifies(c, file + [Entry(next)]) && next.hash != ""
  {
    LastTipOfChain(c, file);
    assert Links(c, Tip(Entries(file)), |Entries(file)| + 1, next);
    VerifiesSnoc(c, file, Entry(next));
  }
}
