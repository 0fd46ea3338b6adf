/**
 * The unique-id pool (`MarkerPanel.get_marker_uuids`). The random source
 * (`uuid.uuid4`) is a supplied stream of candidate ids; running out of it
 * is the error `IdsExhausted`.
 */
module Ids {
  import opened Wrappers
  import opened Seqs

  /** One id per retained record, in record order, plus the id shared by the blank wells. */
  datatype IdAssignment = IdAssignment(recordIds: seq<string>, blankId: string)

  /** No id is used twice: record ids are pairwise distinct and the blank id is none of them. */
  predicate Distinct(a: IdAssignment) {
    NoDup(a.recordIds) && a.blankId !in a.recordIds
  }

  // ---------------------------------------------------------------- generate_fusion_xpd.py

  /**
   * The first recordCount + 1 distinct ids of the stream, records first and the
   * blank id last; an error when the stream holds fewer.
   */
  function FirstDistinctIds(recordCount: nat, stream: seq<string>): (r: Result<IdAssignment>)
    ensures r.Ok? <==> |Dedup(stream)| > recordCount
    ensures r.Err? ==> r.error == IdsExhausted
    ensures r.Ok? ==> |r.value.recordIds| == recordCount && Distinct(r.value)
    ensures r.Ok? ==> r.value.recordIds + [r.value.blankId] == Dedup(stream)[..recordCount + 1]
  {
    var d := Dedup(stream);
    if |d| <= recordCount then Err(IdsExhausted)
    else
      var a := IdAssignment(d[..recordCount], d[recordCount]);
      assert forall i, j :: 0 <= i < j < recordCount ==> a.recordIds[i] == d[i] && a.recordIds[j] == d[j];
      assert forall i :: 0 <= i < recordCount ==> a.recordIds[i] == d[i];
      assert a.recordIds + [a.blankId] == d[..recordCount + 1];
      Ok(a)
  }

  /**
   * The retry loop of fusion_utils/generate_fusion_xpd.py: each round draws as
   * many ids as are still missing and deduplicates the list; the first
   * `recordCount` ids go to the records and the last one to the blank wells.
   * It hands out exactly the first recordCount + 1 distinct ids of the stream.
   */
  method MarkerIdsDedup(recordCount: nat, stream: seq<string>) returns (r: Result<IdAssignment>)
    ensures r == FirstDistinctIds(recordCount, stream)
  {
    var n := recordCount + 1;
    var uuids: seq<string> := [];
    var pos := 0;
    while |Dedup(uuids)| < n
      invariant pos <= |stream|
      invariant uuids == Dedup(stream[..pos])
      invariant |uuids| <= n
      decreases |stream| - pos
    {
      assert Dedup(uuids) == uuids by { DedupOfNoDup(uuids); }
      var k := n - |uuids|;
      if pos + k > |stream| {
        assert FirstDistinctIds(recordCount, stream) == Err(IdsExhausted) by {
          PoolShort(stream, pos, recordCount);
        }
        return Err(IdsExhausted);
      }
      var next := Dedup(uuids + stream[pos..pos + k]);
      assert next == Dedup(stream[..pos + k]) && |next| <= n by {
        DedupRound(stream, pos, k, uuids);
      }
      uuids, pos := next, pos + k;
    }
    assert |uuids| == n by { DedupOfNoDup(uuids); }
    assert FirstDistinctIds(recordCount, stream) == Ok(IdAssignment(uuids[..n - 1], uuids[n - 1])) by {
      PoolDone(stream, pos, recordCount);
    }
    r := Ok(IdAssignment(uuids[..n - 1], uuids[n - 1]));
  }

  /** A round that needs more draws than the stream has left: the stream is short of distinct ids. */
  lemma PoolShort(stream: seq<string>, pos: nat, recordCount: nat)
    requires pos <= |stream| && |Dedup(stream[..pos])| <= recordCount + 1
    requires pos + (recordCount + 1 - |Dedup(stream[..pos])|) > |stream|
    ensures FirstDistinctIds(recordCount, stream) == Err(IdsExhausted)
  {
    DedupTail(stream, pos);
  }

  /** A pool of exactly n distinct ids drawn from a prefix is the assignment of the whole stream. */
  lemma PoolDone(stream: seq<string>, pos: nat, recordCount: nat)
    requires pos <= |stream| && |Dedup(stream[..pos])| == recordCount + 1
    ensures var u := Dedup(stream[..pos]);
      FirstDistinctIds(recordCount, stream) == Ok(IdAssignment(u[..recordCount], u[recordCount]))
  {
    DedupTail(stream, pos);
    var u := Dedup(stream[..pos]);
    var d := Dedup(stream);
    assert d[..recordCount + 1] == u;
    assert d[..recordCount] == u[..recordCount];
    assert d[recordCount] == u[recordCount];
  }

  /** One round of the retry loop: deduplicating the drawn ids with the pool so far. */
  lemma DedupRound(stream: seq<string>, pos: nat, k: nat, pool: seq<string>)
    requires pos + k <= |stream| && pool == Dedup(stream[..pos])
    ensures Dedup(pool + stream[pos..pos + k]) == Dedup(stream[..pos + k])
    ensures |Dedup(pool + stream[pos..pos + k])| <= |pool| + k
  {
    DedupConcat(stream[..pos], stream[pos..pos + k]);
    assert stream[..pos] + stream[pos..pos + k] == stream[..pos + k];
    DedupGrowth(stream[..pos], stream[pos..pos + k]);
  }

  /**
   * The pool drawn from a prefix is a prefix of the whole stream's distinct
   * ids, and the rest of the stream adds at most its length.
   */
  lemma DedupTail(stream: seq<string>, pos: nat)
    requires pos <= |stream|
    ensures |Dedup(stream[..pos])| <= |Dedup(stream)| <= |Dedup(stream[..pos])| + |stream| - pos
    ensures Dedup(stream)[..|Dedup(stream[..pos])|] == Dedup(stream[..pos])
  {
    assert stream[..pos] + stream[pos..] == stream;
    DedupPrefix(stream[..pos], stream[pos..]);
    DedupGrowth(stream[..pos], stream[pos..]);
  }

  // ---------------------------------------------------------------- fusion.py

  /**
   * Where fusion.py's append loop stops when it starts after `k` draws: the
   * least number of draws j >= k whose prefix holds n distinct ids, if any.
   */
  function StopAfter(stream: seq<string>, n: nat, k: nat): (r: Option<nat>)
    requires k <= |stream|
    ensures r.Some? ==> k <= r.value <= |stream|
    decreases |stream| - k
  {
    if |Dedup(stream[..k])| >= n then Some(k)
    else if k == |stream| then None
    else StopAfter(stream, n, k + 1)
  }

  /** The append loop stops at all exactly when the whole stream holds n distinct ids. */
  lemma {:induction false} StopAfterStops(stream: seq<string>, n: nat, k: nat)
    requires k <= |stream|
    ensures StopAfter(stream, n, k).Some? <==> |Dedup(stream)| >= n
    decreases |stream| - k
  {
    DedupTail(stream, k);
    if |Dedup(stream[..k])| < n {
      if k == |stream| {
        assert stream[..k] == stream;
      } else {
        StopAfterStops(stream, n, k + 1);
      }
    }
  }

  /**
   * The append loop stops at the first prefix holding n distinct ids: that
   * prefix holds exactly n of them and the one before it fewer.
   */
  lemma {:induction false} StopAfterLeast(stream: seq<string>, n: nat, k: nat)
    requires k <= |stream|
    requires |Dedup(stream[..k])| <= n
    ensures StopAfter(stream, n, k).Some? ==>
      var j := StopAfter(stream, n, k).value;
      && |Dedup(stream[..j])| == n
      && (j > k ==> |Dedup(stream[..j - 1])| < n)
    decreases |stream| - k
  {
    if |Dedup(stream[..k])| < n && k < |stream| {
      OneMoreDraw(stream, k);
      StopAfterLeast(stream, n, k + 1);
    }
  }

  /** One more draw adds at most one distinct id. */
  lemma OneMoreDraw(stream: seq<string>, k: nat)
    requires k < |stream|
    ensures |Dedup(stream[..k + 1])| <= |Dedup(stream[..k])| + 1
  {
    assert stream[..k + 1] == stream[..k] + [stream[k]];
    DedupSnoc(stream[..k], stream[k]);
  }

  /**
   * The append loop of fusion.py: draw one id at a time until `np.unique`
   * counts recordCount + 1 distinct values. Returns every id drawn, repeats
   * included.
   */
  method DrawAppend(recordCount: nat, stream: seq<string>) returns (r: Result<seq<string>>)
    ensures r.Ok? <==> StopAfter(stream, recordCount + 1, 0).Some?
    ensures r.Err? ==> r.error == IdsExhausted
    ensures r.Ok? ==> r.value == stream[..StopAfter(stream, recordCount + 1, 0).value]
  {
    var n := recordCount + 1;
    var uuids: seq<string> := [];
    var pos := 0;
    while |Dedup(uuids)| < n
      invariant pos <= |stream| && uuids == stream[..pos]
      invariant StopAfter(stream, n, pos) == StopAfter(stream, n, 0)
      decreases |stream| - pos
    {
      if pos == |stream| {
        return Err(IdsExhausted);
      }
      uuids := uuids + [stream[pos]];
      pos := pos + 1;
    }
    r := Ok(uuids);
  }

  /** The draws that end the append loop: the shortest prefix holding n distinct ids. */
  lemma DrawAppendSpec(recordCount: nat, stream: seq<string>)
    ensures StopAfter(stream, recordCount + 1, 0).Some? <==> |Dedup(stream)| > recordCount
    ensures StopAfter(stream, recordCount + 1, 0).Some? ==>
      var drawn := stream[..StopAfter(stream, recordCount + 1, 0).value];
      && |Dedup(drawn)| == recordCount + 1
      && |drawn| > recordCount
      && |Dedup(drawn[..|drawn| - 1])| < recordCount + 1
  {
    assert stream[..0] == [];
    StopAfterStops(stream, recordCount + 1, 0);
    StopAfterLeast(stream, recordCount + 1, 0);
    if StopAfter(stream, recordCount + 1, 0).Some? {
      var j := StopAfter(stream, recordCount + 1, 0).value;
      var drawn := stream[..j];
      assert Dedup(drawn) == Dedup(stream[..j]);
      assert drawn[..|drawn| - 1] == stream[..j - 1];
    }
  }

  /**
   * fusion.py as written: the blank id is the first id drawn and the records
   * take draws 1 .. recordCount of the raw list, repeats included.
   */
  function AssignAsWritten(drawn: seq<string>, recordCount: nat): (a: IdAssignment)
    requires |drawn| > recordCount
    ensures |a.recordIds| == recordCount
    ensures a.blankId == drawn[0] && a.recordIds == drawn[1..recordCount + 1]
  {
    IdAssignment(drawn[1..recordCount + 1], drawn[0])
  }

  /** The as-written assignment is collision-free exactly when the first n draws are. */
  lemma AssignAsWrittenDistinctIff(drawn: seq<string>, recordCount: nat)
    requires |drawn| > recordCount
    ensures Distinct(AssignAsWritten(drawn, recordCount)) <==> NoDup(drawn[..recordCount + 1])
  {
    var a := AssignAsWritten(drawn, recordCount);
    var p := drawn[..recordCount + 1];
    assert p == [a.blankId] + a.recordIds;
    if Distinct(a) {
      forall i, j | 0 <= i < j < |p| ensures p[i] != p[j] {
        if i == 0 {
          assert p[j] == a.recordIds[j - 1];
        } else {
          assert p[i] == a.recordIds[i - 1] && p[j] == a.recordIds[j - 1];
        }
      }
    }
    if NoDup(p) {
      forall k | 0 <= k < |a.recordIds| ensures a.recordIds[k] != a.blankId {
        assert a.recordIds[k] == p[k + 1];
      }
      forall i, j | 0 <= i < j < |a.recordIds| ensures a.recordIds[i] != a.recordIds[j] {
        assert a.recordIds[i] == p[i + 1] && a.recordIds[j] == p[j + 1];
      }
    }
  }

  /**
   * A repeated draw before the loop stops: ids a, a, b for one record. The
   * loop needs two distinct values, so it draws all three, and the record
   * receives the blank id.
   */
  lemma AssignAsWrittenCollision()
    ensures StopAfter(["a", "a", "b"], 2, 0) == Some(3)
    ensures var a := AssignAsWritten(["a", "a", "b"], 1);
      a.blankId == "a" && a.recordIds == ["a"] && !Distinct(a)
  {
    var s := ["a", "a", "b"];
    CollisionCounts();
    assert s[..0] == [] && s[..1] == ["a"] && s[..2] == ["a", "a"] && s[..3] == s;
  }

  /** The distinct ids of the draws a, a, b, prefix by prefix. */
  lemma CollisionCounts()
    ensures |Dedup(["a"])| == 1 && |Dedup(["a", "a"])| == 1 && |Dedup(["a", "a", "b"])| == 2
  {
    var one: seq<string> := ["a"];
    var two: seq<string> := one + ["a"];
    var three: seq<string> := two + ["b"];
    DedupOfNoDup(one);
    DedupSnoc(one, "a");
    assert "b" != "a";
    assert "b" !in two;
    DedupSnoc(two, "b");
    assert two == ["a", "a"] && three == ["a", "a", "b"];
  }

  /**
   * fusion.py as intended: the ids handed out are the first n distinct draws,
   * the first of them for the blank wells.
   */
  function AssignCorrected(drawn: seq<string>, recordCount: nat): (a: IdAssignment)
    requires |Dedup(drawn)| > recordCount
    ensures |a.recordIds| == recordCount
    ensures Distinct(a)
    ensures [a.blankId] + a.recordIds == Dedup(drawn)[..recordCount + 1]
  {
    var d := Dedup(drawn);
    var a := IdAssignment(d[1..recordCount + 1], d[0]);
    assert [a.blankId] + a.recordIds == d[..recordCount + 1];
    forall k | 0 <= k < recordCount ensures a.recordIds[k] != a.blankId {
      assert a.recordIds[k] == d[k + 1];
    }
    forall i, j | 0 <= i < j < recordCount ensures a.recordIds[i] != a.recordIds[j] {
      assert a.recordIds[i] == d[i + 1] && a.recordIds[j] == d[j + 1];
    }
    a
  }

  /** Without a repeat among the first n draws, the correction changes nothing. */
  lemma AssignCorrectedAgrees(drawn: seq<string>, recordCount: nat)
    requires |drawn| > recordCount
    requires NoDup(drawn[..recordCount + 1])
    ensures |Dedup(drawn)| > recordCount
    ensures AssignCorrected(drawn, recordCount) == AssignAsWritten(drawn, recordCount)
  {
    var p := drawn[..recordCount + 1];
    DedupOfNoDup(p);
    DedupPrefix(p, drawn[recordCount + 1..]);
    assert p + drawn[recordCount + 1..] == drawn;
    var d := Dedup(drawn);
    assert d[..recordCount + 1] == p;
    assert d[1..recordCount + 1] == p[1..] == drawn[1..recordCount + 1];
  }
}
