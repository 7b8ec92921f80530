/**
  The image-list state of `App.tsx`: the list of images, the selected id
  and the set of content hashes used to refuse duplicates, with the
  handlers that add, remove, clear, reorder and process images.
  Reading a file (`FileReader`) and the `Date.now()` ids are inputs: each
  added file comes with its read outcome and the id it would be given.
 */
module Gallery {

  import opened Common
  import opened Types
  import Hashing

  datatype Gallery = Gallery(images: seq<ImageInfo>, selectedId: Option<string>, hashes: set<int>)

  /** The outcome of reading one file as a data URL. */
  datatype ReadResult = Read(dataUrl: string) | ReadFailed

  predicate UniqueIds(xs: seq<ImageInfo>) {
    forall i, j :: 0 <= i < j < |xs| ==> xs[i].id != xs[j].id
  }

  predicate UniqueHashes(xs: seq<ImageInfo>) {
    forall i, j :: 0 <= i < j < |xs| ==> xs[i].hash != xs[j].hash
  }

  function HashesOf(xs: seq<ImageInfo>): set<int> {
    set i | 0 <= i < |xs| :: xs[i].hash
  }

  function IdsOf(xs: seq<ImageInfo>): set<string> {
    set i | 0 <= i < |xs| :: xs[i].id
  }

  /**
    The state the handlers keep: ids and hashes unique, the hash set is
    exactly the images' hashes, and a selection names an image.
   */
  predicate Valid(g: Gallery) {
    && UniqueIds(g.images)
    && UniqueHashes(g.images)
    && g.hashes == HashesOf(g.images)
    && (g.selectedId.Some? ==> g.selectedId.value in IdsOf(g.images))
  }

  // ---------------------------------------------------------------------
  // handleAddImages
  // ---------------------------------------------------------------------

  /** The image a file would become: `None` when reading it failed. */
  function Candidate(file: File, read: ReadResult, id: string): (r: Option<ImageInfo>)
    ensures r.Some? <==> read.Read?
    ensures r.Some? ==> r.value == ImageInfo(id, file, read.dataUrl, None, Hashing.SimpleHashOf(read.dataUrl))
  {
    match read
    case Read(url) => Some(ImageInfo(id, file, url, None, Hashing.SimpleHashOf(url)))
    case ReadFailed => None
  }

  function Candidates(files: seq<File>, readResults: seq<ReadResult>, ids: seq<string>): (r: seq<Option<ImageInfo>>)
    requires |files| == |readResults| == |ids|
    ensures |r| == |files|
    ensures forall k :: 0 <= k < |r| ==> r[k] == Candidate(files[k], readResults[k], ids[k])
  {
    seq(|files|, k requires 0 <= k < |files| => Candidate(files[k], readResults[k], ids[k]))
  }

  /** The hashes of the readable candidates among the first `n`. */
  function CandidateHashes(cands: seq<Option<ImageInfo>>, n: nat): set<int>
    requires n <= |cands|
  {
    set j | 0 <= j < n && cands[j].Some? :: cands[j].value.hash
  }

  /**
    Candidate `k` is added: it was read, its hash is not already known and
    no earlier readable candidate of the batch has the same hash.
   */
  predicate IsAdded(known: set<int>, cands: seq<Option<ImageInfo>>, k: nat)
    requires k < |cands|
  {
    && cands[k].Some?
    && cands[k].value.hash !in known
    && forall j :: 0 <= j < k && cands[j].Some? ==> cands[j].value.hash != cands[k].value.hash
  }

  /** The added candidates among the first `n`, in input order. */
  function AddedUpTo(known: set<int>, cands: seq<Option<ImageInfo>>, n: nat): seq<ImageInfo>
    requires n <= |cands|
  {
    if n == 0 then []
    else AddedUpTo(known, cands, n - 1) + (if IsAdded(known, cands, n - 1) then [cands[n - 1].value] else [])
  }

  /** One more candidate adds its hash, when it was read, to the candidate hashes. */
  lemma CandidateHashesStep(cands: seq<Option<ImageInfo>>, n: nat)
    requires n < |cands|
    ensures CandidateHashes(cands, n + 1) ==
            CandidateHashes(cands, n) + (if cands[n].Some? then {cands[n].value.hash} else {})
  {
    var next := CandidateHashes(cands, n) + (if cands[n].Some? then {cands[n].value.hash} else {});
    forall h | h in CandidateHashes(cands, n + 1) ensures h in next {
      var j :| 0 <= j < n + 1 && cands[j].Some? && cands[j].value.hash == h;
      if j < n { assert h in CandidateHashes(cands, n); }
    }
    forall h | h in next ensures h in CandidateHashes(cands, n + 1) {
      if h in CandidateHashes(cands, n) {
        var j :| 0 <= j < n && cands[j].Some? && cands[j].value.hash == h;
      }
    }
  }

  /**
    The source's test against the running hash set decides exactly the
    reference `IsAdded`: the running set is the known hashes plus those of
    the earlier readable candidates.
   */
  lemma IsAddedIffUnseen(known: set<int>, cands: seq<Option<ImageInfo>>, n: nat)
    requires n < |cands| && cands[n].Some?
    ensures IsAdded(known, cands, n) <==> cands[n].value.hash !in known + CandidateHashes(cands, n)
  {
    var h := cands[n].value.hash;
    if h in CandidateHashes(cands, n) {
      var j :| 0 <= j < n && cands[j].Some? && cands[j].value.hash == h;
    }
  }

  /**
    One step of the loop: a candidate that was read and whose hash is not in
    the running set is appended and its hash added; any other candidate
    leaves the running list as it is, and the set grows by its hash (if any).
   */
  lemma AddStep(known: set<int>, cands: seq<Option<ImageInfo>>, i: nat, images: seq<ImageInfo>, hashes: set<int>)
    requires i < |cands|
    requires images == AddedUpTo(known, cands, i) && hashes == known + CandidateHashes(cands, i)
    ensures cands[i].None? ==>
              AddedUpTo(known, cands, i + 1) == images && known + CandidateHashes(cands, i + 1) == hashes
    ensures cands[i].Some? && cands[i].value.hash in hashes ==>
              AddedUpTo(known, cands, i + 1) == images && known + CandidateHashes(cands, i + 1) == hashes
    ensures cands[i].Some? && cands[i].value.hash !in hashes ==>
              && AddedUpTo(known, cands, i + 1) == images + [cands[i].value]
              && known + CandidateHashes(cands, i + 1) == hashes + {cands[i].value.hash}
  {
    CandidateHashesStep(cands, i);
    if cands[i].Some? {
      IsAddedIffUnseen(known, cands, i);
    }
  }

  /**
    The loop of `handleAddImages` over the files' candidates: in order, a
    candidate that was read and whose hash is not in the running set is
    appended and its hash added. The result is exactly the `IsAdded`
    candidates in input order, and the set grows by the hashes of all
    readable candidates.
   */
  method CollectNew(known: set<int>, cands: seq<Option<ImageInfo>>) returns (added: seq<ImageInfo>, hashes: set<int>)
    ensures added == AddedUpTo(known, cands, |cands|)
    ensures hashes == known + CandidateHashes(cands, |cands|)
  {
    added := [];
    hashes := known;
    var i := 0;
    while i < |cands|
      invariant 0 <= i <= |cands|
      invariant added == AddedUpTo(known, cands, i)
      invariant hashes == known + CandidateHashes(cands, i)
    {
      AddStep(known, cands, i, added, hashes);
      if cands[i].Some? {
        var image := cands[i].value;
        if image.hash !in hashes {
          hashes := hashes + {image.hash};
          added := added + [image];
        }
      }
      i := i + 1;
    }
  }

  /**
    `handleAddImages`: each file becomes its candidate (read, hashed, given
    its id) and the new ones are appended. The existing images stay an
    unchanged prefix. The selection becomes the first image only when there
    was none and the list is non-empty.
   */
  method AddImages(g: Gallery, files: seq<File>, readResults: seq<ReadResult>, ids: seq<string>) returns (r: Gallery)
    requires |files| == |readResults| == |ids|
    ensures var cands := Candidates(files, readResults, ids);
            r.images == g.images + AddedUpTo(g.hashes, cands, |cands|)
    ensures var cands := Candidates(files, readResults, ids);
            r.hashes == g.hashes + CandidateHashes(cands, |cands|)
    ensures g.selectedId.None? && |r.images| > 0 ==> r.selectedId == Some(r.images[0].id)
    ensures !(g.selectedId.None? && |r.images| > 0) ==> r.selectedId == g.selectedId
  {
    var cands := Candidates(files, readResults, ids);
    var newImages, newHashes := CollectNew(g.hashes, cands);
    var updated := g.images + newImages;
    var selected := if g.selectedId.None? && |updated| > 0 then Some(updated[0].id) else g.selectedId;
    r := Gallery(updated, selected, newHashes);
  }

  lemma HashesOfConcat(xs: seq<ImageInfo>, ys: seq<ImageInfo>)
    ensures HashesOf(xs + ys) == HashesOf(xs) + HashesOf(ys)
  {
    var zs := xs + ys;
    forall h | h in HashesOf(zs) ensures h in HashesOf(xs) + HashesOf(ys) {
      var i :| 0 <= i < |zs| && zs[i].hash == h;
      if i >= |xs| { assert ys[i - |xs|].hash == h; }
    }
    forall h | h in HashesOf(xs) + HashesOf(ys) ensures h in HashesOf(zs) {
      if h in HashesOf(xs) {
        var i :| 0 <= i < |xs| && xs[i].hash == h;
        assert zs[i] == xs[i];
      } else {
        var i :| 0 <= i < |ys| && ys[i].hash == h;
        assert zs[|xs| + i] == ys[i];
      }
    }
  }

  lemma HashesOfSingleton(x: ImageInfo)
    ensures HashesOf([x]) == {x.hash}
  {
    assert [x][0] == x;
  }

  lemma IdsOfConcat(xs: seq<ImageInfo>, ys: seq<ImageInfo>)
    ensures IdsOf(xs + ys) == IdsOf(xs) + IdsOf(ys)
  {
    var zs := xs + ys;
    forall d | d in IdsOf(zs) ensures d in IdsOf(xs) + IdsOf(ys) {
      var i :| 0 <= i < |zs| && zs[i].id == d;
      if i >= |xs| { assert ys[i - |xs|].id == d; }
    }
    forall d | d in IdsOf(xs) + IdsOf(ys) ensures d in IdsOf(zs) {
      if d in IdsOf(xs) {
        var i :| 0 <= i < |xs| && xs[i].id == d;
        assert zs[i] == xs[i];
      } else {
        var i :| 0 <= i < |ys| && ys[i].id == d;
        assert zs[|xs| + i] == ys[i];
      }
    }
  }

  /**
    The added images carry fresh hashes, pairwise distinct, and the known
    hashes plus theirs are the known hashes plus those of every readable
    file: a file left out was a duplicate.
   */
  lemma {:induction false} AddedAreFresh(known: set<int>, cands: seq<Option<ImageInfo>>, n: nat)
    requires n <= |cands|
    ensures var added := AddedUpTo(known, cands, n);
            && UniqueHashes(added)
            && HashesOf(added) !! known
            && HashesOf(added) <= CandidateHashes(cands, n)
            && known + HashesOf(added) == known + CandidateHashes(cands, n)
  {
    if n > 0 {
      AddedAreFresh(known, cands, n - 1);
      CandidateHashesStep(cands, n - 1);
      var prev := AddedUpTo(known, cands, n - 1);
      var added := AddedUpTo(known, cands, n);
      if IsAdded(known, cands, n - 1) {
        var x := cands[n - 1].value;
        assert added == prev + [x];
        HashesOfConcat(prev, [x]);
        HashesOfSingleton(x);
        IsAddedIffUnseen(known, cands, n - 1);
        assert x.hash !in HashesOf(prev);
        forall i, j | 0 <= i < j < |added| ensures added[i].hash != added[j].hash {
          if j == |prev| {
            assert added[i] == prev[i];
            assert prev[i].hash in HashesOf(prev);
          } else {
            assert added[i] == prev[i] && added[j] == prev[j];
          }
        }
      } else {
        assert added == prev;
        if cands[n - 1].Some? {
          IsAddedIffUnseen(known, cands, n - 1);
        }
      }
    }
  }

  /**
    Every added image is one of the readable candidates; when the
    candidates' ids are distinct, so are the added images' ids.
   */
  lemma {:induction false} AddedIds(known: set<int>, cands: seq<Option<ImageInfo>>, n: nat)
    requires n <= |cands|
    requires forall i, j :: 0 <= i < j < |cands| && cands[i].Some? && cands[j].Some? ==>
               cands[i].value.id != cands[j].value.id
    ensures UniqueIds(AddedUpTo(known, cands, n))
    ensures forall x :: x in AddedUpTo(known, cands, n) ==> exists k :: 0 <= k < n && cands[k] == Some(x)
  {
    if n > 0 {
      AddedIds(known, cands, n - 1);
      var prev := AddedUpTo(known, cands, n - 1);
      var added := AddedUpTo(known, cands, n);
      if IsAdded(known, cands, n - 1) {
        assert added == prev + [cands[n - 1].value];
        forall i, j | 0 <= i < j < |added| ensures added[i].id != added[j].id {
          assert added[i] == prev[i];
          if j == |prev| {
            assert prev[i] in prev;
            var k :| 0 <= k < n - 1 && cands[k] == Some(prev[i]);
          } else {
            assert added[j] == prev[j];
          }
        }
      }
    }
  }

  /**
    Adding a batch whose ids are distinct and new keeps the state valid:
    ids and hashes stay unique, the hash set is again exactly the images'
    hashes, and the old images stay an unchanged prefix.
   */
  method AddImagesValid(g: Gallery, files: seq<File>, readResults: seq<ReadResult>, ids: seq<string>) returns (r: Gallery)
    requires Valid(g)
    requires |files| == |readResults| == |ids|
    requires forall i, j :: 0 <= i < j < |ids| ==> ids[i] != ids[j]
    requires forall i :: 0 <= i < |ids| ==> ids[i] !in IdsOf(g.images)
    ensures Valid(r)
    ensures |r.images| >= |g.images| && r.images[..|g.images|] == g.images
  {
    r := AddImages(g, files, readResults, ids);
    var cands := Candidates(files, readResults, ids);
    var added := AddedUpTo(g.hashes, cands, |cands|);
    AddedAreFresh(g.hashes, cands, |cands|);
    AddedIds(g.hashes, cands, |cands|);
    AddedIdsAreNew(g, cands, ids, added);
    AppendFresh(g.images, added);
    assert r.images == g.images + added;
    if g.selectedId.None? && |r.images| > 0 {
      assert r.images[0].id in IdsOf(r.images);
    }
    assert r.images[..|g.images|] == g.images;
  }

  /** Added images take their ids from the batch, so none of them is already in the gallery. */
  lemma AddedIdsAreNew(g: Gallery, cands: seq<Option<ImageInfo>>, ids: seq<string>, added: seq<ImageInfo>)
    requires |cands| == |ids|
    requires forall k :: 0 <= k < |cands| && cands[k].Some? ==> cands[k].value.id == ids[k]
    requires forall i :: 0 <= i < |ids| ==> ids[i] !in IdsOf(g.images)
    requires forall x :: x in added ==> exists k :: 0 <= k < |cands| && cands[k] == Some(x)
    ensures IdsOf(added) !! IdsOf(g.images)
  {
    forall d | d in IdsOf(added) ensures d !in IdsOf(g.images) {
      var i :| 0 <= i < |added| && added[i].id == d;
      assert added[i] in added;
      var k :| 0 <= k < |cands| && cands[k] == Some(added[i]);
    }
  }

  /** Appending images with new ids and hashes keeps both unique and extends both sets. */
  lemma AppendFresh(xs: seq<ImageInfo>, ys: seq<ImageInfo>)
    requires UniqueIds(xs) && UniqueHashes(xs) && UniqueIds(ys) && UniqueHashes(ys)
    requires IdsOf(xs) !! IdsOf(ys) && HashesOf(xs) !! HashesOf(ys)
    ensures UniqueIds(xs + ys) && UniqueHashes(xs + ys)
    ensures HashesOf(xs + ys) == HashesOf(xs) + HashesOf(ys)
    ensures IdsOf(xs + ys) == IdsOf(xs) + IdsOf(ys)
  {
    HashesOfConcat(xs, ys);
    IdsOfConcat(xs, ys);
    var zs := xs + ys;
    forall i, j | 0 <= i < j < |zs| ensures zs[i].id != zs[j].id && zs[i].hash != zs[j].hash {
      if i < |xs| <= j {
        assert zs[j] == ys[j - |xs|] && zs[i] == xs[i];
        assert zs[j].id in IdsOf(ys) && zs[i].id in IdsOf(xs);
        assert zs[j].hash in HashesOf(ys) && zs[i].hash in HashesOf(xs);
      } else if |xs| <= i {
        assert zs[i] == ys[i - |xs|] && zs[j] == ys[j - |xs|];
      }
    }
  }

  // ---------------------------------------------------------------------
  // handleRemoveImage / handleClearImages
  // ---------------------------------------------------------------------

  /** `images.findIndex(img => img.id === id)`, `None` for -1. */
  function FindIndex(xs: seq<ImageInfo>, id: string): (r: Option<nat>)
    ensures r.Some? ==> r.value < |xs| && xs[r.value].id == id && forall j :: 0 <= j < r.value ==> xs[j].id != id
    ensures r.None? ==> forall j :: 0 <= j < |xs| ==> xs[j].id != id
  {
    if |xs| == 0 then None
    else if xs[0].id == id then Some(0)
    else match FindIndex(xs[1..], id)
      case None => None
      case Some(i) => Some(i + 1)
  }

  /** `images.filter(img => img.id !== id)`. */
  function WithoutId(xs: seq<ImageInfo>, id: string): (r: seq<ImageInfo>)
    ensures |r| <= |xs|
    ensures forall k :: 0 <= k < |r| ==> r[k].id != id
    ensures |r| == |xs| <==> forall k :: 0 <= k < |xs| ==> xs[k].id != id
  {
    if |xs| == 0 then []
    else if xs[0].id == id then WithoutId(xs[1..], id)
    else [xs[0]] + WithoutId(xs[1..], id)
  }

  /** The filter keeps exactly the images whose id differs. */
  lemma {:induction false} WithoutIdMembers(xs: seq<ImageInfo>, id: string, x: ImageInfo)
    ensures x in WithoutId(xs, id) <==> x in xs && x.id != id
  {
    if |xs| > 0 {
      WithoutIdMembers(xs[1..], id, x);
      assert xs == [xs[0]] + xs[1..];
    }
  }

  /** Filtering keeps a prefix free of the id in place. */
  lemma {:induction false} WithoutIdKeepsPrefix(xs: seq<ImageInfo>, id: string, k: nat)
    requires k <= |xs| && forall j :: 0 <= j < k ==> xs[j].id != id
    ensures |WithoutId(xs, id)| >= k && WithoutId(xs, id)[..k] == xs[..k]
  {
    if k > 0 {
      var tail := xs[1..];
      assert forall j :: 0 <= j < k - 1 ==> tail[j].id != id by {
        forall j | 0 <= j < k - 1 ensures tail[j].id != id {
          assert tail[j] == xs[j + 1];
        }
      }
      WithoutIdKeepsPrefix(tail, id, k - 1);
      var rest := WithoutId(tail, id);
      assert xs[0].id != id;
      assert WithoutId(xs, id) == [xs[0]] + rest;
      assert ([xs[0]] + rest)[..k] == [xs[0]] + rest[..k - 1];
      assert xs[..k] == [xs[0]] + tail[..k - 1];
    }
  }

  /** With unique ids, filtering out a present id removes exactly its one position. */
  lemma {:induction false} WithoutUniqueId(xs: seq<ImageInfo>, id: string, idx: nat)
    requires UniqueIds(xs) && idx < |xs| && xs[idx].id == id
    ensures WithoutId(xs, id) == xs[..idx] + xs[idx + 1..]
  {
    var tail := xs[1..];
    if idx == 0 {
      HeadNotInTail(xs);
      WithoutIdKeepsPrefix(tail, id, |tail|);
      assert tail[..|tail|] == tail;
    } else {
      assert xs[0].id != id;
      TailUnique(xs);
      assert tail[idx - 1] == xs[idx];
      WithoutUniqueId(tail, id, idx - 1);
      ConsRemoveAt(xs, idx);
    }
  }

  /** Dropping position `idx > 0` commutes with taking the head off. */
  lemma ConsRemoveAt<T>(xs: seq<T>, idx: nat)
    requires 0 < idx < |xs|
    ensures [xs[0]] + (xs[1..][..idx - 1] + xs[1..][idx..]) == xs[..idx] + xs[idx + 1..]
  {
    assert xs[..idx] == [xs[0]] + xs[1..][..idx - 1];
    assert xs[idx + 1..] == xs[1..][idx..];
  }

  /** With unique ids the first id does not occur again. */
  lemma HeadNotInTail(xs: seq<ImageInfo>)
    requires UniqueIds(xs) && |xs| > 0
    ensures forall j :: 0 <= j < |xs[1..]| ==> xs[1..][j].id != xs[0].id
  {
    forall j | 0 <= j < |xs[1..]| ensures xs[1..][j].id != xs[0].id {
      assert xs[1..][j] == xs[j + 1];
    }
  }

  /** A tail of a list with unique ids has unique ids. */
  lemma TailUnique(xs: seq<ImageInfo>)
    requires UniqueIds(xs) && |xs| > 0
    ensures UniqueIds(xs[1..])
  {
    var tail := xs[1..];
    forall i, j | 0 <= i < j < |tail| ensures tail[i].id != tail[j].id {
      assert tail[i] == xs[i + 1] && tail[j] == xs[j + 1];
    }
  }

  /**
    `handleRemoveImage`: an unknown id changes nothing. Otherwise every image
    with that id is filtered out, the first match's hash leaves the set, and
    a removed selection moves to the remaining image at `max(0, idx - 1)`,
    an index that is always in range, or to none when nothing remains.
   */
  function RemoveImage(g: Gallery, id: string): (r: Gallery)
    ensures FindIndex(g.images, id).None? ==> r == g
    ensures FindIndex(g.images, id).Some? ==>
              && r.images == WithoutId(g.images, id)
              && r.hashes == g.hashes - {g.images[FindIndex(g.images, id).value].hash}
    ensures g.selectedId != Some(id) ==> r.selectedId == g.selectedId
    ensures g.selectedId == Some(id) && FindIndex(g.images, id).Some? && |r.images| == 0 ==> r.selectedId.None?
    ensures g.selectedId == Some(id) && FindIndex(g.images, id).Some? && |r.images| > 0 ==>
              r.selectedId.Some? && r.selectedId.value in IdsOf(r.images)
  {
    match FindIndex(g.images, id)
    case None => g
    case Some(idx) =>
      var remaining := WithoutId(g.images, id);
      var hashes := g.hashes - {g.images[idx].hash};
      WithoutIdKeepsPrefix(g.images, id, idx);
      var selected :=
        if g.selectedId == Some(id) then
          if |remaining| > 0 then
            var next := if idx - 1 > 0 then idx - 1 else 0;
            assert remaining[next].id in IdsOf(remaining);
            Some(remaining[next].id)
          else None
        else g.selectedId;
      Gallery(remaining, selected, hashes)
  }

  /**
    With unique ids, removing the selected image selects its predecessor,
    or its successor when it was first.
   */
  lemma RemoveSelectsNeighbour(g: Gallery, idx: nat)
    requires UniqueIds(g.images) && idx < |g.images| && |g.images| > 1
    requires g.selectedId == Some(g.images[idx].id)
    ensures RemoveImage(g, g.images[idx].id).selectedId ==
              Some(if idx > 0 then g.images[idx - 1].id else g.images[1].id)
  {
    var id := g.images[idx].id;
    assert FindIndex(g.images, id) == Some(idx);
    WithoutUniqueId(g.images, id, idx);
  }

  /** Removing one position of a list with unique ids and hashes removes exactly its id and hash. */
  lemma RemoveAtSets(xs: seq<ImageInfo>, idx: nat)
    requires UniqueIds(xs) && UniqueHashes(xs) && idx < |xs|
    ensures var ys := xs[..idx] + xs[idx + 1..];
            && UniqueIds(ys) && UniqueHashes(ys)
            && HashesOf(ys) == HashesOf(xs) - {xs[idx].hash}
            && IdsOf(ys) == IdsOf(xs) - {xs[idx].id}
  {
    RemoveAtUnique(xs, idx);
    RemoveAtHashes(xs, idx);
    RemoveAtIds(xs, idx);
  }

  lemma RemoveAtHashes(xs: seq<ImageInfo>, idx: nat)
    requires UniqueHashes(xs) && idx < |xs|
    ensures HashesOf(xs[..idx] + xs[idx + 1..]) == HashesOf(xs) - {xs[idx].hash}
  {
    var pre, x, post := xs[..idx], xs[idx], xs[idx + 1..];
    assert xs == pre + [x] + post;
    HashesOfConcat(pre, post);
    HashesOfConcat(pre, [x]);
    HashesOfConcat(pre + [x], post);
    HashesOfSingleton(x);
    assert x.hash !in HashesOf(pre) by {
      forall i | 0 <= i < |pre| ensures pre[i].hash != x.hash { assert pre[i] == xs[i]; }
    }
    assert x.hash !in HashesOf(post) by {
      forall i | 0 <= i < |post| ensures post[i].hash != x.hash { assert post[i] == xs[idx + 1 + i]; }
    }
  }

  lemma RemoveAtIds(xs: seq<ImageInfo>, idx: nat)
    requires UniqueIds(xs) && idx < |xs|
    ensures IdsOf(xs[..idx] + xs[idx + 1..]) == IdsOf(xs) - {xs[idx].id}
  {
    var pre, x, post := xs[..idx], xs[idx], xs[idx + 1..];
    assert xs == pre + [x] + post;
    IdsOfConcat(pre, post);
    IdsOfConcat(pre, [x]);
    IdsOfConcat(pre + [x], post);
    assert IdsOf([x]) == {x.id} by { assert [x][0] == x; }
    assert x.id !in IdsOf(pre) by {
      forall i | 0 <= i < |pre| ensures pre[i].id != x.id { assert pre[i] == xs[i]; }
    }
    assert x.id !in IdsOf(post) by {
      forall i | 0 <= i < |post| ensures post[i].id != x.id { assert post[i] == xs[idx + 1 + i]; }
    }
  }

  /** Removing one position keeps ids and hashes unique. */
  lemma RemoveAtUnique(xs: seq<ImageInfo>, idx: nat)
    requires UniqueIds(xs) && UniqueHashes(xs) && idx < |xs|
    ensures UniqueIds(xs[..idx] + xs[idx + 1..]) && UniqueHashes(xs[..idx] + xs[idx + 1..])
  {
    var ys := xs[..idx] + xs[idx + 1..];
    forall i, j | 0 <= i < j < |ys| ensures ys[i].id != ys[j].id && ys[i].hash != ys[j].hash {
      var a := if i < idx then i else i + 1;
      var b := if j < idx then j else j + 1;
      assert ys[i] == xs[a] && ys[j] == xs[b] && a < b;
    }
  }

  /** Removing by id keeps the state valid. */
  lemma RemovePreservesValid(g: Gallery, id: string)
    requires Valid(g)
    ensures Valid(RemoveImage(g, id))
  {
    var r := RemoveImage(g, id);
    match FindIndex(g.images, id)
    case None =>
    case Some(idx) =>
      WithoutUniqueId(g.images, id, idx);
      RemoveAtSets(g.images, idx);
      if r.selectedId.Some? && g.selectedId != Some(id) {
        assert g.selectedId.value != g.images[idx].id;
      }
  }

  /** `handleClearImages`: no images, no hashes, no selection; a valid state. */
  function ClearImages(g: Gallery): (r: Gallery)
    ensures Valid(r) && |r.images| == 0 && r.selectedId.None?
  {
    Gallery([], None, {})
  }

  // ---------------------------------------------------------------------
  // handleReorderImages
  // ---------------------------------------------------------------------

  /** `splice(i, 1)`. */
  function RemoveAt<T>(xs: seq<T>, i: nat): (r: seq<T>)
    requires i < |xs|
    ensures |r| == |xs| - 1
    ensures forall k :: 0 <= k < i ==> r[k] == xs[k]
    ensures forall k :: i <= k < |r| ==> r[k] == xs[k + 1]
  {
    xs[..i] + xs[i + 1..]
  }

  /** `splice(i, 0, x)` for an index at most the length. */
  function InsertAt<T>(xs: seq<T>, i: nat, x: T): (r: seq<T>)
    requires i <= |xs|
    ensures |r| == |xs| + 1
    ensures r[i] == x
    ensures forall k :: 0 <= k < i ==> r[k] == xs[k]
    ensures forall k :: i < k < |r| ==> r[k] == xs[k - 1]
  {
    xs[..i] + [x] + xs[i..]
  }

  /**
    `handleReorderImages(dragIndex, hoverIndex)`: the dragged image is taken
    out and inserted at the hover index. The result is a permutation with
    the dragged image at the hover index and every other image in its old
    relative order.
   */
  function Reorder<T>(xs: seq<T>, drag: nat, hover: nat): (r: seq<T>)
    requires drag < |xs| && hover < |xs|
    ensures |r| == |xs|
    ensures multiset(r) == multiset(xs)
    ensures r[hover] == xs[drag]
    ensures RemoveAt(r, hover) == RemoveAt(xs, drag)
  {
    var without := RemoveAt(xs, drag);
    var r := InsertAt(without, hover, xs[drag]);
    assert r[..hover] + r[hover + 1..] == without by {
      assert r[..hover] == without[..hover];
      assert r[hover + 1..] == without[hover..];
    }
    assert xs == xs[..drag] + [xs[drag]] + xs[drag + 1..];
    assert multiset(xs) == multiset(without) + multiset{xs[drag]};
    assert without == without[..hover] + without[hover..];
    assert multiset(r) == multiset(without) + multiset{xs[drag]};
    r
  }

  /** Dragging back from the hover index to the drag index restores the list. */
  lemma ReorderInverse<T>(xs: seq<T>, drag: nat, hover: nat)
    requires drag < |xs| && hover < |xs|
    ensures Reorder(Reorder(xs, drag, hover), hover, drag) == xs
  {
    var r := Reorder(xs, drag, hover);
    var back := Reorder(r, hover, drag);
    Reassemble(back, drag);
    Reassemble(xs, drag);
  }

  /** A list is its element at `i` put back between the two sides of its removal. */
  lemma Reassemble<T>(xs: seq<T>, i: nat)
    requires i < |xs|
    ensures xs == RemoveAt(xs, i)[..i] + [xs[i]] + RemoveAt(xs, i)[i..]
  {
    var w := RemoveAt(xs, i);
    assert w[..i] == xs[..i];
    assert w[i..] == xs[i + 1..];
  }

  // ---------------------------------------------------------------------
  // handleProcessImages
  // ---------------------------------------------------------------------

  /**
    `handleProcessImages`: each image, in order, gets the data URL its
    transform produced, or `null` when the transform threw; nothing else
    about the image changes.
   */
  function ProcessImages(images: seq<ImageInfo>, outcomes: seq<Option<string>>): (r: seq<ImageInfo>)
    requires |outcomes| == |images|
    ensures |r| == |images|
    ensures forall i :: 0 <= i < |r| ==>
              && r[i].id == images[i].id && r[i].file == images[i].file
              && r[i].originalSrc == images[i].originalSrc && r[i].hash == images[i].hash
              && r[i].processedSrc == outcomes[i]
  {
    seq(|images|, i requires 0 <= i < |images| => images[i].(processedSrc := outcomes[i]))
  }

  /** Processing keeps the state valid. */
  lemma ProcessPreservesValid(g: Gallery, outcomes: seq<Option<string>>)
    requires Valid(g) && |outcomes| == |g.images|
    ensures Valid(g.(images := ProcessImages(g.images, outcomes)))
  {
    var r := ProcessImages(g.images, outcomes);
    assert HashesOf(r) == HashesOf(g.images) by {
      assert forall i :: 0 <= i < |r| ==> r[i].hash == g.images[i].hash;
    }
    assert IdsOf(r) == IdsOf(g.images) by {
      assert forall i :: 0 <= i < |r| ==> r[i].id == g.images[i].id;
    }
  }

  /** Reordering keeps the state valid. */
  lemma ReorderPreservesValid(g: Gallery, drag: nat, hover: nat)
    requires Valid(g) && drag < |g.images| && hover < |g.images|
    ensures Valid(g.(images := Reorder(g.images, drag, hover)))
  {
    var xs := g.images;
    var r := Reorder(xs, drag, hover);
    PermutationKeepsUnique(xs, r);
  }

  /** An element of one of two lists with the same multiset is at some index of the other. */
  lemma IndexInPermutation(xs: seq<ImageInfo>, ys: seq<ImageInfo>, i: nat) returns (a: nat)
    requires multiset(xs) == multiset(ys) && i < |ys|
    ensures a < |xs| && xs[a] == ys[i]
  {
    assert ys[i] in multiset(ys);
    assert ys[i] in xs;
    a :| 0 <= a < |xs| && xs[a] == ys[i];
  }

  /** A permutation of a list with unique ids and hashes keeps both, and the same id and hash sets. */
  lemma PermutationKeepsUnique(xs: seq<ImageInfo>, ys: seq<ImageInfo>)
    requires multiset(xs) == multiset(ys) && UniqueIds(xs) && UniqueHashes(xs)
    ensures UniqueIds(ys) && UniqueHashes(ys) && HashesOf(ys) == HashesOf(xs) && IdsOf(ys) == IdsOf(xs)
  {
    forall i, j | 0 <= i < j < |ys| ensures ys[i].id != ys[j].id && ys[i].hash != ys[j].hash {
      DistinctPositionsInPermutation(xs, ys, i, j);
    }
    PermutationSameSets(xs, ys);
  }

  /** Two positions of a permutation of a list with unique ids hold different ids and hashes. */
  lemma DistinctPositionsInPermutation(xs: seq<ImageInfo>, ys: seq<ImageInfo>, i: nat, j: nat)
    requires multiset(xs) == multiset(ys) && UniqueIds(xs) && UniqueHashes(xs)
    requires i < j < |ys|
    ensures ys[i].id != ys[j].id && ys[i].hash != ys[j].hash
  {
    var a := IndexInPermutation(xs, ys, i);
    var b := IndexInPermutation(xs, ys, j);
    if a == b {
      TwiceCountsTwice(ys, i, j);
      UniqueCount(xs, a);
      assert false;
    }
  }

  /** An element at two positions occurs at least twice. */
  lemma TwiceCountsTwice<T>(ys: seq<T>, i: nat, j: nat)
    requires i < j < |ys| && ys[i] == ys[j]
    ensures multiset(ys)[ys[i]] >= 2
  {
    assert ys == ys[..i] + [ys[i]] + ys[i + 1..j] + [ys[j]] + ys[j + 1..];
  }

  /** Permuted lists have the same ids and hashes. */
  lemma PermutationSameSets(xs: seq<ImageInfo>, ys: seq<ImageInfo>)
    requires multiset(xs) == multiset(ys)
    ensures HashesOf(ys) == HashesOf(xs) && IdsOf(ys) == IdsOf(xs)
  {
    forall h | h in HashesOf(ys) ensures h in HashesOf(xs) {
      var i :| 0 <= i < |ys| && ys[i].hash == h;
      var a := IndexInPermutation(xs, ys, i);
    }
    forall h | h in HashesOf(xs) ensures h in HashesOf(ys) {
      var i :| 0 <= i < |xs| && xs[i].hash == h;
      var a := IndexInPermutation(ys, xs, i);
    }
    forall d | d in IdsOf(ys) ensures d in IdsOf(xs) {
      var i :| 0 <= i < |ys| && ys[i].id == d;
      var a := IndexInPermutation(xs, ys, i);
    }
    forall d | d in IdsOf(xs) ensures d in IdsOf(ys) {
      var i :| 0 <= i < |xs| && xs[i].id == d;
      var a := IndexInPermutation(ys, xs, i);
    }
  }

  /** In a list with unique ids, an element occurs once. */
  lemma {:induction false} UniqueCount(xs: seq<ImageInfo>, a: nat)
    requires UniqueIds(xs) && a < |xs|
    ensures multiset(xs)[xs[a]] == 1
  {
    var x := xs[a];
    assert xs == xs[..a] + [x] + xs[a + 1..];
    assert x !in xs[..a] && x !in xs[a + 1..] by {
      forall j | 0 <= j < |xs| && j != a ensures xs[j] != x {
        assert xs[j].id != x.id;
      }
    }
    assert multiset(xs) == multiset(xs[..a]) + multiset{x} + multiset(xs[a + 1..]);
  }
}
