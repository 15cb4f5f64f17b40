/** The scanner's files: append-only shards, a resume point saved after them, and a reader
    that drops repeated IDs (internal/sessions/scan.go, store.go). */
module SessionStore {
  import opened SessionFold
  import opened SessionHistory
  import Order

  /** A shard is a file of blocks, one a line. */
  type Shards = map<string, seq<Block>>

  /** The file a block goes to: its machine's, for the month it started in. */
  type Filing = Block -> string

  ghost function Stored(shards: Shards): set<Block> {
    set f, b | f in shards && b in shards[f] :: b
  }

  ghost function Members(blocks: seq<Block>): set<Block> {
    set b | b in blocks
  }

  /** Different blocks have different IDs. */
  ghost predicate CollisionFree(blocks: set<Block>) {
    forall a, b :: a in blocks && b in blocks && IdOf(a) == IdOf(b) ==> a == b
  }

  lemma OneMoreMember(blocks: seq<Block>, i: nat)
    requires i < |blocks|
    ensures Members(blocks[..i + 1]) == Members(blocks[..i]) + {blocks[i]}
  {
  }

  lemma StoringOneMore(shards: Shards, file: string, b: Block)
    ensures var lines := if file in shards then shards[file] else [];
            Stored(shards[file := lines + [b]]) == Stored(shards) + {b}
  {
    var lines := if file in shards then shards[file] else [];
    var more := shards[file := lines + [b]];
    forall x | x in Stored(shards) + {b} ensures x in Stored(more) {
      if x == b {
        assert x in more[file];
      } else {
        var f :| f in shards && x in shards[f];
        assert f in more && x in more[f];
      }
    }
  }

  /** The transcripts a machine has, and what its scanner keeps on disk. */
  class Journal {
    const machine: string
    const filing: Filing
    /** Every event the collectors have to offer so far, oldest file position first. */
    var transcript: seq<Event>
    /** The saved resume point: how much has been consumed, and the open blocks. */
    var offset: nat
    var open: map<string, Block>
    var shards: Shards

    ghost predicate Valid()
      reads this
    {
      offset <= |transcript| && Filed(open)
    }

    constructor (machine: string, filing: Filing)
      ensures Valid() && this.machine == machine && this.filing == filing
      ensures transcript == [] && offset == 0 && open == map[] && shards == map[]
    {
      this.machine, this.filing := machine, filing;
      transcript, offset, open, shards := [], 0, map[], map[];
    }

    /** Writes one month's blocks after what its shard holds; a write may fail part way. */
    method WriteShard(file: string, group: seq<Block>) returns (ok: bool)
      modifies this`shards
      ensures Stored(old(shards)) <= Stored(shards) <= Stored(old(shards)) + Members(group)
      ensures ok ==> Stored(shards) == Stored(old(shards)) + Members(group)
    {
      hide Stored;
      for i := 0 to |group|
        invariant Stored(shards) == Stored(old(shards)) + Members(group[..i])
      {
        assert Members(group[..i]) <= Members(group) && Members(group[..i + 1]) == Members(group[..i]) + {group[i]};
        var written := *;
        if !written {
          return false;
        }
        StoringOneMore(shards, file, group[i]);
        shards := shards[file := (if file in shards then shards[file] else []) + [group[i]]];
      }
      assert group[..|group|] == group;
      ok := true;
    }

    /** Groups blocks by shard and appends each group, the groups in any order. */
    method AppendBlocks(blocks: seq<Block>) returns (ok: bool)
      modifies this`shards
      ensures Stored(old(shards)) <= Stored(shards) <= Stored(old(shards)) + Members(blocks)
      ensures ok ==> Stored(shards) == Stored(old(shards)) + Members(blocks)
    {
      var byMonth: Shards := map[];
      assert Stored(byMonth) == Members(blocks[..0]);
      hide Stored;
      hide Members;
      for i := 0 to |blocks|
        invariant Stored(byMonth) == Members(blocks[..i])
        invariant shards == old(shards)
      {
        var month := filing(blocks[i]);
        StoringOneMore(byMonth, month, blocks[i]);
        byMonth := byMonth[month := (if month in byMonth then byMonth[month] else []) + [blocks[i]]];
        OneMoreMember(blocks, i);
      }
      assert blocks[..|blocks|] == blocks;
      ok := WriteGroups(byMonth);
    }

    method WriteGroups(groups: Shards) returns (ok: bool)
      modifies this`shards
      ensures Stored(old(shards)) <= Stored(shards) <= Stored(old(shards)) + Stored(groups)
      ensures ok ==> Stored(shards) == Stored(old(shards)) + Stored(groups)
    {
      ghost var written: set<Block> := {};
      var files := groups.Keys;
      while files != {}
        invariant files <= groups.Keys
        invariant written == set f, b | f in groups && f !in files && b in groups[f] :: b
        invariant Stored(shards) == Stored(old(shards)) + written
      {
        var file :| file in files;
        assert Members(groups[file]) <= Stored(groups);
        var done := WriteShard(file, groups[file]);
        if !done {
          return false;
        }
        written := written + Members(groups[file]);
        files := files - {file};
      }
      ok := true;
    }

    /** One scan: fold what is new, append what it sealed, then save the resume point. It
        may stop while appending, or between the append and the save; the blocks it sealed
        may then be in the shards, in part or in full, while the resume point is the old
        one. */
    method ScanLocked(now: int) returns (saved: bool, ghost sealed: seq<Block>, ghost reached: map<string, Block>)
      requires Valid()
      modifies this
      ensures Valid() && transcript == old(transcript)
      ensures Folded(machine, old(open), old(transcript[offset..]), now, reached, sealed)
      ensures saved ==> open == reached && offset == |transcript|
      ensures saved ==> Stored(shards) == Stored(old(shards)) + Members(sealed)
      ensures !saved ==> open == old(open) && offset == old(offset)
      ensures !saved ==> Stored(old(shards)) <= Stored(shards) <= Stored(old(shards)) + Members(sealed)
    {
      hide Folded;
      hide Stored;
      hide Filed;
      var state := new ScanState(open);
      var blocks := state.Fold(machine, transcript[offset..], now);
      sealed, reached := blocks, state.open;
      var appended := AppendBlocks(blocks);
      saved := *;
      if !appended || !saved {
        saved := false;
        return;
      }
      offset := |transcript|;
      open := state.open;
    }

    /** Every stored block, the first of each ID, shard by shard. */
    method ReadBlocks() returns (blocks: seq<Block>)
      ensures Members(blocks) <= Stored(shards)
      ensures forall i, j :: 0 <= i < j < |blocks| ==> IdOf(blocks[i]) != IdOf(blocks[j])
      ensures forall b :: b in Stored(shards) ==> exists i :: 0 <= i < |blocks| && IdOf(blocks[i]) == IdOf(b)
      ensures CollisionFree(Stored(shards)) ==> Members(blocks) == Stored(shards)
    {
      hide IdOf;
      hide CollisionFree;
      var files := Order.Sorted(shards.Keys);
      var seen: set<BlockId> := {};
      blocks := [];
      for i := 0 to |files|
        invariant Members(blocks) <= Stored(shards)
        invariant forall j, k :: 0 <= j < k < |blocks| ==> IdOf(blocks[j]) != IdOf(blocks[k])
        invariant seen == set b | b in blocks :: IdOf(b)
        invariant forall k, b :: 0 <= k < i && b in shards[files[k]] ==> IdOf(b) in seen
      {
        assert files[i] in files;
        assert Members(shards[files[i]]) <= Stored(shards);
        var novel;
        novel, seen := ReadShard(shards[files[i]], seen);
        NoRepeats(blocks, novel);
        blocks := blocks + novel;
      }
      forall b | b in Stored(shards) ensures exists i :: 0 <= i < |blocks| && IdOf(blocks[i]) == IdOf(b) {
        var f :| f in shards && b in shards[f];
        assert f in files;
        assert IdOf(b) in seen;
        var x :| x in blocks && IdOf(x) == IdOf(b);
      }
      if CollisionFree(Stored(shards)) {
        OneOfEachIsAll(blocks, Stored(shards));
      }
    }
  }

  lemma OneOfEachIsAll(blocks: seq<Block>, stored: set<Block>)
    requires Members(blocks) <= stored && CollisionFree(stored)
    requires forall b :: b in stored ==> exists i :: 0 <= i < |blocks| && IdOf(blocks[i]) == IdOf(b)
    ensures Members(blocks) == stored
  {
    hide IdOf;
    forall b | b in stored ensures b in blocks {
      var i :| 0 <= i < |blocks| && IdOf(blocks[i]) == IdOf(b);
      assert blocks[i] in Members(blocks);
    }
  }

  lemma NoRepeats(blocks: seq<Block>, novel: seq<Block>)
    requires forall j, k :: 0 <= j < k < |blocks| ==> IdOf(blocks[j]) != IdOf(blocks[k])
    requires forall j, k :: 0 <= j < k < |novel| ==> IdOf(novel[j]) != IdOf(novel[k])
    requires forall b, c :: b in blocks && c in novel ==> IdOf(b) != IdOf(c)
    ensures var all := blocks + novel; forall j, k :: 0 <= j < k < |all| ==> IdOf(all[j]) != IdOf(all[k])
  {
    var all := blocks + novel;
    forall j, k | 0 <= j < k < |all| ensures IdOf(all[j]) != IdOf(all[k]) {
      if j < |blocks| <= k {
        assert all[j] in blocks && all[k] in novel;
      } else if k < |blocks| {
        assert all[j] == blocks[j] && all[k] == blocks[k];
      } else {
        assert all[j] == novel[j - |blocks|] && all[k] == novel[k - |blocks|];
      }
    }
  }

  /** No earlier line has the block's ID. */
  ghost predicate IsFirst(lines: seq<Block>, b: Block) {
    exists i :: 0 <= i < |lines| && lines[i] == b && forall j :: 0 <= j < i ==> IdOf(lines[j]) != IdOf(b)
  }

  /** The blocks of one shard whose ID has not been seen, the first of each ID. */
  method ReadShard(lines: seq<Block>, seen0: set<BlockId>) returns (blocks: seq<Block>, seen: set<BlockId>)
    ensures Members(blocks) <= Members(lines)
    ensures forall j, k :: 0 <= j < k < |blocks| ==> IdOf(blocks[j]) != IdOf(blocks[k])
    ensures forall b :: b in blocks ==> IdOf(b) !in seen0
    ensures seen == seen0 + set b | b in blocks :: IdOf(b)
    ensures forall b :: b in lines ==> IdOf(b) in seen
    ensures forall b :: b in blocks ==> IsFirst(lines, b)
  {
    hide IdOf;
    hide IsFirst;
    blocks, seen := [], seen0;
    for i := 0 to |lines|
      invariant Members(blocks) <= Members(lines)
      invariant forall j, k :: 0 <= j < k < |blocks| ==> IdOf(blocks[j]) != IdOf(blocks[k])
      invariant forall b :: b in blocks ==> IdOf(b) !in seen0
      invariant seen == seen0 + set b | b in blocks :: IdOf(b)
      invariant forall k :: 0 <= k < i ==> IdOf(lines[k]) in seen
      invariant forall b :: b in blocks ==> IsFirst(lines, b)
    {
      var b := lines[i];
      if IdOf(b) !in seen {
        FirstOfItsId(lines, i);
        assert forall j :: 0 <= j < |blocks| ==> blocks[j] in blocks;
        seen := seen + {IdOf(b)};
        blocks := blocks + [b];
      }
    }
  }

  lemma FirstOfItsId(lines: seq<Block>, i: nat)
    requires i < |lines| && forall k :: 0 <= k < i ==> IdOf(lines[k]) != IdOf(lines[i])
    ensures IsFirst(lines, lines[i])
  {
  }

  // ---------------------------------------------------------------- crashes

  /** A scan that crashed before its save sealed nothing that a later scan, which reads
      those events again with what came since, does not seal again. */
  lemma CrashedScansSealNothingNew(machine: string, start: map<string, Block>, a: seq<Event>, now1: int,
                                   b: seq<Event>, now2: int, mid: map<string, Block>, crashed: seq<Block>,
                                   whole: map<string, Block>, sealedAll: seq<Block>)
    requires Timely(a, now1, b, now2)
    requires Folded(machine, start, a, now1, mid, crashed)
    requires Folded(machine, start, a + b, now2, whole, sealedAll)
    ensures Members(crashed) <= Members(sealedAll)
  {
    hide ScanLine;
    hide SortByTime;
    hide KeyOf;
    LaterBatchesSortApart(a, b);
    SortedMembers(b);
    forall x | x in crashed ensures x in sealedAll {
      var k := KeyOfBlock(x);
      var l := Line(OpenAt(start, k), []);
      var ea, eb := EventsOf(SortByTime(a), k), EventsOf(SortByTime(b), k);
      EventsOfJoin(SortByTime(a), SortByTime(b), k);
      EventsOfMembers(SortByTime(b), k);
      TwoScansAreOne(machine, l, ea, now1, eb, now2);
      ScanOnlyGrows(machine, ScanLine(machine, l, ea, now1), eb, now2);
      MembersByKey(crashed, x);
      MembersByKey(sealedAll, x);
      assert BlocksOf(crashed, k) <= BlocksOf(sealedAll, k);
    }
  }

  /** A crash between the append and the save is harmless: whatever part of what the first
      scan sealed reached the shards, after the next scan the shards hold exactly the
      blocks they would hold had the first scan saved, and the open blocks are the same. */
  lemma CrashBeforeSaveIsHarmless(machine: string, start: map<string, Block>, a: seq<Event>, now1: int,
                                  b: seq<Event>, now2: int, mid: map<string, Block>, sealedA: seq<Block>,
                                  end: map<string, Block>, sealedB: seq<Block>,
                                  whole: map<string, Block>, sealedAll: seq<Block>,
                                  before: set<Block>, written: set<Block>)
    requires Timely(a, now1, b, now2)
    requires Folded(machine, start, a, now1, mid, sealedA)
    requires Folded(machine, mid, b, now2, end, sealedB)
    requires Folded(machine, start, a + b, now2, whole, sealedAll)
    requires written <= Members(sealedA)
    ensures end == whole
    ensures before + written + Members(sealedAll) == before + Members(sealedA) + Members(sealedB)
  {
    hide Folded;
    hide Timely;
    SplitScansAgree(machine, start, a, now1, b, now2, mid, sealedA, end, sealedB, whole, sealedAll);
  }
}
