/**
 * The model listing: every metadata file, in sorted name order, becomes a
 * `{model_id, target_uuid}` summary when it is a readable record with both
 * keys and, if a target filter is given, the matching target.
 */
module Listing {
  import opened Options
  import opened JsonValues

  datatype Summary = Summary(modelId: Json, targetUuid: Json)

  /** Python's `sub in s` on strings. */
  predicate Contains(s: string, sub: string) {
    (|sub| <= |s| && s[..|sub|] == sub) || (s != [] && Contains(s[1..], sub))
  }

  /** What one pass of the listing loop does with a file, as the loop is written. */
  datatype Step = Skip | Emit(summary: Summary) | Crash

  /**
   * One pass of the loop as written. The `in` tests ask a string for a
   * substring and a list for an element; on a number, a boolean or null
   * they raise `TypeError`, and so does indexing a string or a list with a
   * key. Nothing catches that error, so the request fails.
   */
  function StepAsWritten(file: MetadataFile, target: Option<string>): Step {
    match file
    case Unreadable => Skip
    case Parsed(doc) =>
      match doc
      case Obj(fields) =>
        if "model_id" !in fields || "target_uuid" !in fields then Skip
        else if target.Some? && fields["target_uuid"] != Str(target.value) then Skip
        else Emit(Summary(fields["model_id"], fields["target_uuid"]))
      case Str(s) =>
        if !Contains(s, "model_id") || !Contains(s, "target_uuid") then Skip else Crash
      case Arr(items) =>
        if Str("model_id") !in items || Str("target_uuid") !in items then Skip else Crash
      case _ => Crash
  }

  /** One pass of the loop with every document that is not an object skipped like an unreadable one. */
  function Admit(file: MetadataFile, target: Option<string>): Option<Summary> {
    match file
    case Parsed(Obj(fields)) =>
      if "model_id" !in fields || "target_uuid" !in fields then None
      else if target.Some? && fields["target_uuid"] != Str(target.value) then None
      else Some(Summary(fields["model_id"], fields["target_uuid"]))
    case _ => None
  }

  ghost predicate Covers(names: seq<string>, files: map<string, MetadataFile>) {
    forall k :: 0 <= k < |names| ==> names[k] in files
  }

  /** The summaries of the files `names`, in that order. */
  function Listed(names: seq<string>, files: map<string, MetadataFile>, target: Option<string>): (r: seq<Summary>)
    requires Covers(names, files)
    ensures |r| <= |names|
  {
    if names == [] then []
    else
      var last := names[|names| - 1];
      Listed(names[..|names| - 1], files, target) + (match Admit(files[last], target) case Some(e) => [e] case None => [])
  }

  /** The listing as written: `None` where some file makes the request fail. */
  function ListedAsWritten(names: seq<string>, files: map<string, MetadataFile>, target: Option<string>): (r: Option<seq<Summary>>)
    requires Covers(names, files)
    ensures r.Some? ==> |r.value| <= |names|
  {
    if names == [] then Some([])
    else
      var last := names[|names| - 1];
      match ListedAsWritten(names[..|names| - 1], files, target)
      case None => None
      case Some(front) =>
        match StepAsWritten(files[last], target)
        case Crash => None
        case Skip => Some(front)
        case Emit(e) => Some(front + [e])
  }

  /**
   * The corrected listing loop: visits `names` in order and collects the
   * summary of each file it admits, skipping non-object documents. No
   * handler runs it: `GET /models` runs `ListFilesAsWritten`.
   */
  method ListFiles(names: seq<string>, files: map<string, MetadataFile>, target: Option<string>)
    returns (models: seq<Summary>)
    requires Covers(names, files)
    ensures models == Listed(names, files, target)
  {
    models := [];
    var i := 0;
    while i < |names|
      invariant 0 <= i <= |names|
      invariant models == Listed(names[..i], files, target)
    {
      ListedExtend(names, files, target, i);
      match Admit(files[names[i]], target) {
        case Some(e) => models := models + [e];
        case None =>
      }
      i := i + 1;
    }
    assert names[..|names|] == names;
  }

  /**
   * The listing loop as written: visits `names` in order, collects the
   * summary of each file it emits, and gives up at the first file whose key
   * tests raise.
   */
  method ListFilesAsWritten(names: seq<string>, files: map<string, MetadataFile>, target: Option<string>)
    returns (models: Option<seq<Summary>>)
    requires Covers(names, files)
    ensures models == ListedAsWritten(names, files, target)
  {
    var summaries := [];
    var i := 0;
    while i < |names|
      invariant 0 <= i <= |names|
      invariant Covers(names[..i], files)
      invariant ListedAsWritten(names[..i], files, target) == Some(summaries)
    {
      assert names[..i + 1][..i] == names[..i];
      match StepAsWritten(files[names[i]], target) {
        case Crash =>
          AsWrittenFails(names, files, target);
          return None;
        case Skip =>
        case Emit(e) => summaries := summaries + [e];
      }
      i := i + 1;
    }
    assert names[..|names|] == names;
    models := Some(summaries);
  }

  /** Listing a concatenation lists each part. */
  lemma {:induction false} ListedAppend(a: seq<string>, b: seq<string>, files: map<string, MetadataFile>, target: Option<string>)
    requires Covers(a, files) && Covers(b, files)
    ensures Covers(a + b, files)
    ensures Listed(a + b, files, target) == Listed(a, files, target) + Listed(b, files, target)
    decreases |b|
  {
    if b == [] {
      assert a + b == a;
    } else {
      assert (a + b)[..|a + b| - 1] == a + b[..|b| - 1];
      ListedAppend(a, b[..|b| - 1], files, target);
    }
  }

  /** Listing one more file of `names` appends that file's summary, if any. */
  lemma ListedExtend(names: seq<string>, files: map<string, MetadataFile>, target: Option<string>, i: nat)
    requires Covers(names, files) && i < |names|
    ensures Covers(names[..i], files) && Covers(names[..i + 1], files)
    ensures Listed(names[..i + 1], files, target) ==
      Listed(names[..i], files, target) + match Admit(files[names[i]], target) case Some(e) => [e] case None => []
  {
    assert names[..i + 1][..i] == names[..i];
  }

  /** A summary is listed exactly when some listed file admits to it. */
  lemma {:induction false} ListedMembers(names: seq<string>, files: map<string, MetadataFile>, target: Option<string>, e: Summary)
    requires Covers(names, files)
    ensures e in Listed(names, files, target) <==>
              exists k :: 0 <= k < |names| && Admit(files[names[k]], target) == Some(e)
  {
    if names != [] {
      var init := names[..|names| - 1];
      ListedMembers(init, files, target, e);
      if e in Listed(init, files, target) {
        var k :| 0 <= k < |init| && Admit(files[init[k]], target) == Some(e);
        assert names[k] == init[k];
      }
      if k :| 0 <= k < |names| && Admit(files[names[k]], target) == Some(e) {
        if k < |init| {
          assert init[k] == names[k];
        }
      }
    }
  }

  /** The summaries of `entries` whose target is `target`. */
  function ForTarget(entries: seq<Summary>, target: string): seq<Summary> {
    if entries == [] then []
    else
      var last := entries[|entries| - 1];
      ForTarget(entries[..|entries| - 1], target) + (if last.targetUuid == Str(target) then [last] else [])
  }

  /** The filtered listing is the unfiltered listing with the other targets left out. */
  lemma {:induction false} ListedForTarget(names: seq<string>, files: map<string, MetadataFile>, target: string)
    requires Covers(names, files)
    ensures Listed(names, files, Some(target)) == ForTarget(Listed(names, files, None), target)
  {
    if names != [] {
      var init := names[..|names| - 1];
      ListedForTarget(init, files, target);
      var all := Listed(names, files, None);
      var front := Listed(init, files, None);
      match Admit(files[names[|names| - 1]], None)
      case None =>
        assert all == front;
      case Some(e) =>
        assert all == front + [e];
        assert all[..|all| - 1] == front;
    }
  }

  /** A file the listing skips can be taken away without changing the listing. */
  lemma SkippedFileIsInvisible(names: seq<string>, files: map<string, MetadataFile>, target: Option<string>, k: nat)
    requires Covers(names, files) && k < |names|
    requires Admit(files[names[k]], target).None?
    ensures Covers(names[..k] + names[k + 1..], files)
    ensures Listed(names[..k] + names[k + 1..], files, target) == Listed(names, files, target)
  {
    var a, n, b := names[..k], names[k], names[k + 1..];
    assert names == a + [n] + b;
    assert Covers(a, files) && Covers(b, files);
    ListedOfOne(n, files, target);
    ListedAppend(a, [n], files, target);
    ListedAppend(a + [n], b, files, target);
    ListedAppend(a, b, files, target);
    calc {
      Listed(names, files, target);
      Listed(a + [n], files, target) + Listed(b, files, target);
      Listed(a, files, target) + [] + Listed(b, files, target);
      { assert Listed(a, files, target) + [] == Listed(a, files, target); }
      Listed(a + b, files, target);
    }
  }

  /** The listing of one file. */
  lemma ListedOfOne(n: string, files: map<string, MetadataFile>, target: Option<string>)
    requires n in files
    ensures Listed([n], files, target) == match Admit(files[n], target) case Some(e) => [e] case None => []
  {
    assert [n][..0] == [];
  }

  /** Wherever the loop as written gets through, it lists what the corrected loop lists. */
  lemma {:induction false} AsWrittenAgrees(names: seq<string>, files: map<string, MetadataFile>, target: Option<string>)
    requires Covers(names, files)
    ensures ListedAsWritten(names, files, target).Some? ==>
              ListedAsWritten(names, files, target).value == Listed(names, files, target)
  {
    if names != [] {
      AsWrittenAgrees(names[..|names| - 1], files, target);
    }
  }

  /** The loop as written fails exactly when some file crashes its key tests. */
  lemma {:induction false} AsWrittenFails(names: seq<string>, files: map<string, MetadataFile>, target: Option<string>)
    requires Covers(names, files)
    ensures ListedAsWritten(names, files, target).None? <==>
              exists k :: 0 <= k < |names| && StepAsWritten(files[names[k]], target) == Crash
  {
    if names != [] {
      var init := names[..|names| - 1];
      AsWrittenFails(init, files, target);
      if k :| 0 <= k < |init| && StepAsWritten(files[init[k]], target) == Crash {
        assert names[k] == init[k];
      }
      if k :| 0 <= k < |names| && StepAsWritten(files[names[k]], target) == Crash {
        if k < |init| {
          assert init[k] == names[k];
        }
      }
    }
  }

  /**
   * A metadata file holding the JSON number 42 next to a valid record makes
   * the listing as written fail, where the corrected listing skips it.
   */
  lemma NonObjectRecordFailsListing()
    ensures var files := map["a" := Parsed(Int(42)), "b" := Parsed(Obj(map["model_id" := Str("m"), "target_uuid" := Str("t")]))];
      && ListedAsWritten(["a", "b"], files, None) == None
      && Listed(["a", "b"], files, None) == [Summary(Str("m"), Str("t"))]
  {
    var files := map["a" := Parsed(Int(42)), "b" := Parsed(Obj(map["model_id" := Str("m"), "target_uuid" := Str("t")]))];
    assert ["a", "b"][..1] == ["a"];
    assert ["a"][..0] == [];
  }

  /** The corrected listing skips every document that is not an object. */
  lemma NonObjectsAreSkipped(names: seq<string>, files: map<string, MetadataFile>, target: Option<string>, k: nat)
    requires Covers(names, files) && k < |names|
    requires files[names[k]].Unreadable? || !files[names[k]].doc.Obj?
    ensures Covers(names[..k] + names[k + 1..], files)
    ensures Listed(names[..k] + names[k + 1..], files, target) == Listed(names, files, target)
  {
    SkippedFileIsInvisible(names, files, target, k);
  }
}
