/** Which files the in-place patches and the scans accept, byte by byte, on every file. */
module PatchExact {
  import opened Bytes
  import opened Common
  import opened Signature
  import opened Layout
  import opened RecordIO
  import opened EntryLog
  import opened PeekMagics
  import opened AppendExact
  import Counters
  import DeriveLink
  import BatchClose
  import TaskMerge

  /** E1 "TPB", the type and domain, the letter of the position, "1" E0. */
  function Eight(kind: byte, letter: char): seq<byte>
    requires letter as int < 256
  {
    [0xE1, 0x54, 0x50, 0x42, kind, letter as int, 0x31, 0xE0]
  }

  predicate Starts(f: seq<byte>, kind: byte) {
    |f| >= 8 && f[..8] == Eight(kind, 'S')
  }

  predicate Ends(f: seq<byte>, kind: byte) {
    |f| >= 8 && f[|f| - 8..] == Eight(kind, 'E')
  }

  lemma StartsIs(f: seq<byte>, t: FileType, d: Domain)
    ensures At(f, 0, Magic(t, d, Start)) <==>
            Starts(f, (if t == Entry then 0xE0 else 0xD0)
                      + (if d == TBatch then 0 else if d == Kernel then 1 else if d == Task then 2 else 3))
  {
    AtSlice(f, 0, Magic(t, d, Start));
    assert |f| >= 8 ==> f[0..8] == f[..8];
    hide At;
  }

  lemma EndsIs(f: seq<byte>, d: Domain)
    requires |f| >= 8
    ensures At(f, |f| - 8, Magic(Entry, d, End)) <==>
            Ends(f, 0xE0 + (if d == TBatch then 0 else if d == Kernel then 1 else if d == Task then 2 else 3))
  {
    AtSlice(f, |f| - 8, Magic(Entry, d, End));
    assert f[|f| - 8..|f|] == f[|f| - 8..];
    hide At;
  }

  // ---------------------------------------------------------------- the log of environments

  /** The k-th row of 1828 bytes lies in the file, and begins with the ID. */
  predicate Carries(f: seq<byte>, pos: nat, k: nat, id: u32) {
    pos + 1828 * k + 1828 <= |f| && UnLe(f[pos + 1828 * k..pos + 1828 * k + 4]) == id
  }

  /** The scan stops at the first row that carries the ID. */
  lemma {:induction false} ScanExactly(f: seq<byte>, pos: nat, id: u32)
    ensures match Counters.ScanRow(f, pos, id)
            case None => forall k :: !Carries(f, pos, k, id)
            case Some(p) =>
              pos <= p && (p - pos) % 1828 == 0 && Carries(f, pos, (p - pos) / 1828, id)
              && forall k :: 0 <= k < (p - pos) / 1828 ==> !Carries(f, pos, k, id)
    decreases |f| - pos
  {
    hide UnLe;
    if pos + 1828 <= |f| {
      var row := f[pos..pos + 1828];
      assert row[0..4] == f[pos..pos + 4];
      if Counters.RowId(row) != id {
        ScanExactly(f, pos + 1828, id);
        forall k: nat
          ensures Carries(f, pos, k, id) <==> k > 0 && Carries(f, pos + 1828, k - 1, id)
        {
        }
        match Counters.ScanRow(f, pos + 1828, id)
        case None =>
        case Some(p) =>
          assert p - pos == p - (pos + 1828) + 1828;
      }
    }
  }

  /** Both patches of the log need its START signature and a whole row with the ID; END is not looked at. */
  lemma LogAccepts(f: seq<byte>, id: u32, a: u32, b: u32)
    ensures Counters.LogPatched(f, id, a, b).Some? <==> Starts(f, 0xE3) && exists k :: Carries(f, 8, k, id)
    ensures DeriveLink.LogDerived(f, id, a).Some? <==> Starts(f, 0xE3) && exists k :: Carries(f, 8, k, id)
  {
    StartsIs(f, Entry, RtEnv);
    ScanExactly(f, 8, id);
    hide At;
    hide Magic;
    hide Carries;
    hide Starts;
    hide Overwrite;
    hide Apply;
    match Counters.ScanRow(f, 8, id)
    case None =>
    case Some(p) =>
      assert Carries(f, 8, (p - 8) / 1828, id);
      CarriesFits(f, 8, (p - 8) / 1828, id);
  }

  lemma CarriesFits(f: seq<byte>, pos: nat, k: nat, id: u32)
    requires Carries(f, pos, k, id)
    ensures pos + 1828 * k + 1828 <= |f|
  {
  }

  // ---------------------------------------------------------------- records

  /** The patches of records: an environment's needs START and the two counters in the file, a batch's START alone, a
      task's START and the ID of the task. */
  lemma RecordAccepts(f: seq<byte>, a: u32, b: u32, n: u64, task: Id, target: Id)
    ensures Counters.RecordPatched(f, a, b).Some? <==> Starts(f, 0xD3) && |f| >= 564
    ensures BatchClose.Counted(f, n, a, b).Some? <==> Starts(f, 0xD0)
    ensures TaskMerge.RecordMerged(f, task, target).Some? <==> Starts(f, 0xD2) && |f| >= 44 && f[24..44] == task
  {
    StartsIs(f, Rec, RtEnv);
    StartsIs(f, Rec, TBatch);
    StartsIs(f, Rec, Task);
    AtSlice(f, 24, task);
    hide At;
    hide Magic;
    hide Starts;
    hide Overwrite;
    hide Apply;
  }

  // ---------------------------------------------------------------- row logs

  function Kind(d: Domain): byte {
    match d
    case TBatch => 0xE0
    case Kernel => 0xE1
    case Task => 0xE2
    case RtEnv => 0xE3
  }

  /** Appending needs an empty file, or one of 16 bytes or more with END behind them; START is not looked at. */
  lemma AppendAccepts(f: seq<byte>, d: Domain, row: seq<byte>)
    ensures Appended(f, d, row).Some? <==> f == [] || (|f| >= 16 && Ends(f, Kind(d)))
  {
    if |f| >= 16 {
      EndsIs(f, d);
    }
    hide At;
    hide Magic;
    hide Ends;
  }

  /** Listing needs START and a whole number of rows, and END unless there are none. */
  lemma ListAccepts(f: seq<byte>, d: Domain, w: nat)
    requires w > 0
    ensures Listed(f, d, w).Some?
            <==> |f| >= 16 && (|f| - 16) % w == 0 && Starts(f, Kind(d)) && (|f| == 16 || Ends(f, Kind(d)))
  {
    StartsIs(f, Entry, d);
    hide At;
    hide Magic;
    hide Starts;
    hide Ends;
    if |f| >= 16 && (|f| - 16) % w == 0 {
      EndsIs(f, d);
      var n := (|f| - 16) / w;
      assert |f| - 16 == n * w;
      TimesSum(n, w);
      if n == 0 {
        assert n * w == 0;
      } else {
        MulMono(1, n, w);
      }
    }
  }

  lemma {:induction false} TimesSum(n: nat, w: nat)
    ensures Sum(Times(n, w)) == n * w && |Times(n, w)| == n
  {
    if n > 0 {
      TimesSum(n - 1, w);
      assert n * w == (n - 1) * w + w;
    }
  }

  // ---------------------------------------------------------------- the scan for signatures

  /** The scan answers with the first SPLIT from byte 24 on, and with END as far behind it as the size says; when the
      size leaves room for it, SPLIT is only looked for where the payload still fits. */
  lemma PeekExactly(f: seq<byte>, d: Domain, p: nat, e: nat)
    ensures Peek(f, d) == Some((p, e)) <==>
            && |f| >= 24 && At(f, 0, Magic(Rec, d, Start)) && 24 <= p && At(f, p, Magic(Rec, d, Split))
            && (forall q :: 24 <= q < p ==> !At(f, q, Magic(Rec, d, Split)))
            && var size := UnLe(f[16..24]);
               && (size <= |f| - 24 ==> p + 16 + size <= |f|)
               && e == p + 8 + Signed(size) && At(f, e, Magic(Rec, d, End))
  {
    hide Magic;
    hide At;
    if |f| >= 24 {
      var hi := SearchHi(f, GetU64(f[16..24]));
      FirstExactly(f, d, 24, hi, p);
      if At(f, p, Magic(Rec, d, Split)) {
        AtFits(f, p, Magic(Rec, d, Split));
      }
    }
    hide FirstSplit;
  }

  lemma {:induction false} FirstExactly(f: seq<byte>, d: Domain, pos: nat, hi: int, p: nat)
    ensures FirstSplit(f, d, pos, hi) == Some(p) <==>
            && pos <= p <= hi && At(f, p, Magic(Rec, d, Split))
            && forall q :: pos <= q < p ==> !At(f, q, Magic(Rec, d, Split))
    decreases hi - pos
  {
    hide Magic;
    hide At;
    if pos <= hi {
      if At(f, p, Magic(Rec, d, Split)) {
        AtFits(f, p, Magic(Rec, d, Split));
      }
      FirstExactly(f, d, pos + 1, hi, p);
    }
  }
}
