/** The ring of decoded pictures waiting to be shown (`pictq`, `pictq_windex`,
    `pictq_rindex`, `pictq_size` in src/_gmovie.c). Its capacity is the header
    constant VIDEO_PICTURE_QUEUE_SIZE, a parameter here. */
module PictureQueues {

  /** One ring slot: whether it holds a picture not yet shown, the pts of the
      picture last written into it, and whether its display overlay exists. */
  datatype Picture = Picture(ready: bool, pts: real, hasOverlay: bool)

  /** The fields the ring logic reads and writes. */
  datatype Ring = Ring(slots: seq<Picture>, windex: int, rindex: int, size: int)
  {
    ghost predicate WellFormed()
    {
      |slots| > 0 && 0 <= windex < |slots| && 0 <= rindex < |slots|
    }

    /** Slot of the k-th oldest queued picture. */
    function Slot(k: int): int
      requires WellFormed() && 0 <= k <= |slots|
    {
      if rindex + k < |slots| then rindex + k else rindex + k - |slots|
    }

    /** How far slot `s` lies behind the read index, going round the ring. */
    function Offset(s: int): int
      requires WellFormed() && 0 <= s < |slots|
    {
      if s >= rindex then s - rindex else s + |slots| - rindex
    }

    /** The ring invariant: at most N pictures are queued, the write index is
        just past the newest, and a slot is ready exactly when it lies among
        the `size` slots that start at the read index. */
    ghost predicate Inv()
    {
      && WellFormed()
      && 0 <= size <= |slots|
      && windex == Slot(size)
      && forall s :: 0 <= s < |slots| ==> (slots[s].ready <==> Offset(s) < size)
    }

    /** The pts of the queued pictures, oldest first. */
    ghost function Contents(): seq<real>
      requires Inv()
    {
      seq(size, k requires 0 <= k < size => slots[Slot(k)].pts)
    }
  }

  lemma NextIndex(w: int, n: int)
    requires 0 <= w < n
    ensures (w + 1) % n == if w + 1 == n then 0 else w + 1
  {
  }

  /** `queue_picture` (src/_gmovie.c:582-635) on the ring. The slot at the write
      index gets an overlay from `video_open` if it has none; `openOk` says
      whether that succeeded. Only when the slot has an overlay is the picture
      written: its pts recorded, the write index advanced modulo N, the count
      raised and the slot marked ready. */
  function EnqueuePicture(r: Ring, openOk: bool, framePts: real): (r': Ring)
    requires r.WellFormed()
    ensures r'.WellFormed() && |r'.slots| == |r.slots|
  {
    var w := r.windex;
    var withOverlay := r.slots[w].hasOverlay || openOk;
    var slots := r.slots[w := r.slots[w].(hasOverlay := withOverlay)];
    if !withOverlay then r.(slots := slots)
    else
      NextIndex(w, |slots|);
      Ring(slots[w := slots[w].(ready := true, pts := framePts)], (w + 1) % |slots|, r.rindex, r.size + 1)
  }

  /** The ring part of `video_image_display` (src/_gmovie.c:392-476): the slot
      at the read index is marked not ready, the read index advances modulo N
      and the count drops, whether or not the slot had an overlay to show. */
  function ConsumePicture(r: Ring): (r': Ring)
    requires r.WellFormed()
    ensures r'.WellFormed() && |r'.slots| == |r.slots|
  {
    var i := r.rindex;
    NextIndex(i, |r.slots|);
    Ring(r.slots[i := r.slots[i].(ready := false)], r.windex, (i + 1) % |r.slots|, r.size - 1)
  }

  /** Under the ring invariant the slot at the read index is ready exactly
      when some picture is queued, so testing its flag (as `video_display`
      does) is testing for a non-empty ring. */
  lemma HeadReadyIffNonEmpty(r: Ring)
    requires r.Inv()
    ensures r.slots[r.rindex].ready <==> r.size > 0
  {
    assert r.Offset(r.rindex) == 0;
  }

  lemma OffsetOfSlot(r: Ring, k: int)
    requires r.WellFormed() && 0 <= k < |r.slots|
    ensures 0 <= r.Slot(k) < |r.slots| && r.Offset(r.Slot(k)) == k
  {
  }

  /** Queueing a picture into a ring with a free slot keeps the ring invariant
      and appends the picture's pts to the queued contents; when no overlay
      could be had the queued contents are unchanged. Neither `queue_picture`
      nor its caller `video_render` (src/_gmovie.c:1846-1899) checks for a
      free slot: see `FullRingWriteOverwritesHead`. */
  lemma QueuePictureKeepsRing(r: Ring, openOk: bool, framePts: real)
    requires r.Inv() && r.size < |r.slots|
    ensures EnqueuePicture(r, openOk, framePts).Inv()
    ensures EnqueuePicture(r, openOk, framePts).Contents() ==
            if r.slots[r.windex].hasOverlay || openOk then r.Contents() + [framePts] else r.Contents()
  {
    if r.slots[r.windex].hasOverlay || openOk {
      WrittenRingInv(r, framePts);
      WrittenRingContents(r, framePts);
    } else {
      var r' := EnqueuePicture(r, openOk, framePts);
      assert forall s :: 0 <= s < |r.slots| ==> r'.slots[s].ready == r.slots[s].ready;
      assert r'.Inv();
      assert r'.Contents() == r.Contents();
    }
  }

  lemma WrittenRingInv(r: Ring, framePts: real)
    requires r.Inv() && r.size < |r.slots|
    ensures EnqueuePicture(r, true, framePts).Inv()
  {
    var r' := EnqueuePicture(r, true, framePts);
    var n := |r.slots|;
    NextIndex(r.windex, n);
    assert r.windex == r.Slot(r.size);
    OffsetOfSlot(r, r.size);
    forall s | 0 <= s < n
      ensures r'.slots[s].ready <==> r'.Offset(s) < r'.size
    {
      if s != r.windex {
        assert r'.Offset(s) == r.Offset(s);
      }
    }
  }

  lemma WrittenRingContents(r: Ring, framePts: real)
    requires r.Inv() && r.size < |r.slots|
    ensures EnqueuePicture(r, true, framePts).Inv()
    ensures EnqueuePicture(r, true, framePts).Contents() == r.Contents() + [framePts]
  {
    var r' := EnqueuePicture(r, true, framePts);
    WrittenRingInv(r, framePts);
    assert r.windex == r.Slot(r.size);
    forall k | 0 <= k < r'.size
      ensures r'.Contents()[k] == (r.Contents() + [framePts])[k]
    {
      assert r'.Slot(k) == r.Slot(k);
      if k < r.size {
        OffsetOfSlot(r, k);
        OffsetOfSlot(r, r.size);
      }
    }
  }

  /** `queue_picture` as written, on a full ring. `video_render` decodes and
      queues whatever packet it takes from the video queue, and a packet can
      be waiting there while the ring is full (the decoder reads while the
      ring has room, and a paused or slow display lets packets pile up). On a
      full ring the write index is the read index, so the write lands on the
      oldest picture, which was never shown, and the count passes N. */
  lemma FullRingWriteOverwritesHead(r: Ring, framePts: real)
    requires r.Inv() && r.size == |r.slots|
    ensures r.windex == r.rindex && r.slots[r.rindex].ready
    ensures var r' := EnqueuePicture(r, true, framePts);
      && r'.size == |r.slots| + 1 && !r'.Inv()
      && r'.slots[r.rindex].pts == framePts && r'.slots[r.rindex].ready
  {
    assert r.Offset(r.rindex) == 0;
  }

  /** `queue_picture` as intended: a picture is queued only while the ring has
      a free slot, and otherwise the ring is left as it is (the decoder thread
      would wait for the display to consume one). */
  function QueuePictureWhenRoom(r: Ring, openOk: bool, framePts: real): (r': Ring)
    requires r.WellFormed()
    ensures r'.WellFormed() && |r'.slots| == |r.slots|
    ensures r.size >= |r.slots| ==> r' == r
  {
    if r.size < |r.slots| then EnqueuePicture(r, openOk, framePts) else r
  }

  /** The intended `queue_picture` keeps the ring invariant on every ring that
      has it, and the queued pts grow by the new picture exactly when it was
      written, so no queued picture is ever overwritten. */
  lemma QueuePictureWhenRoomKeepsRing(r: Ring, openOk: bool, framePts: real)
    requires r.Inv()
    ensures QueuePictureWhenRoom(r, openOk, framePts).Inv()
    ensures var written := r.size < |r.slots| && (r.slots[r.windex].hasOverlay || openOk);
      QueuePictureWhenRoom(r, openOk, framePts).Contents() ==
        if written then r.Contents() + [framePts] else r.Contents()
  {
    if r.size < |r.slots| {
      QueuePictureKeepsRing(r, openOk, framePts);
    }
  }

  /** Showing the head picture of a non-empty ring keeps the ring invariant,
      removes exactly the oldest picture from the queued contents, and leaves
      the shown slot not ready, so it cannot be shown again before it is
      written again. */
  lemma ImageDisplayKeepsRing(r: Ring)
    requires r.Inv() && r.slots[r.rindex].ready
    ensures ConsumePicture(r).Inv()
    ensures r.Contents() != [] && r.Contents()[0] == r.slots[r.rindex].pts
    ensures ConsumePicture(r).Contents() == r.Contents()[1..]
    ensures !ConsumePicture(r).slots[r.rindex].ready
  {
    var r' := ConsumePicture(r);
    var n := |r.slots|;
    HeadReadyIffNonEmpty(r);
    NextIndex(r.rindex, n);
    forall s | 0 <= s < n
      ensures r'.slots[s].ready <==> r'.Offset(s) < r'.size
    {
      if s != r.rindex {
        assert r'.Offset(s) == r.Offset(s) - 1;
      }
    }
    assert r'.windex == r'.Slot(r'.size);
    assert r'.Inv();
    forall k | 0 <= k < r'.size
      ensures r'.Contents()[k] == r.Contents()[1..][k]
    {
      assert r'.Slot(k) == r.Slot(k + 1);
    }
  }

  /** The picture ring of a movie. The C code keeps an array of VidPicture
      structs as a field of the movie; `pictq` is that array. */
  class PictureQueue {
    const pictq: array<Picture>
    var windex: int
    var rindex: int
    var size: int

    function State(): Ring
      reads this, pictq
    {
      Ring(pictq[..], windex, rindex, size)
    }

    ghost predicate Valid()
      reads this, pictq
    {
      State().WellFormed()
    }

    /** A ring of `n` slots, none ready and none with an overlay, as in a
        freshly allocated, zero-filled movie. */
    constructor (n: nat)
      requires n > 0
      ensures Valid() && State().Inv() && fresh(pictq)
      ensures State() == Ring(seq(n, _ => Picture(false, 0.0, false)), 0, 0, 0)
    {
      pictq := new Picture[n](_ => Picture(false, 0.0, false));
      windex, rindex, size := 0, 0, 0;
    }

    /** `queue_picture`. */
    method QueuePicture(openOk: bool, framePts: real)
      requires Valid()
      modifies this, pictq
      ensures State() == EnqueuePicture(old(State()), openOk, framePts)
      ensures Valid()
    {
      var w := windex;
      if !pictq[w].hasOverlay {
        pictq[w] := pictq[w].(hasOverlay := openOk);
      }
      if pictq[w].hasOverlay {
        pictq[w] := pictq[w].(ready := true, pts := framePts);
        windex := (windex + 1) % pictq.Length;
        size := size + 1;
      }
    }

    /** `queue_picture` as intended: the write happens only with a free slot.
        `queued` says whether the picture entered the ring. */
    method QueueIfRoom(openOk: bool, framePts: real) returns (queued: bool)
      requires Valid()
      modifies this, pictq
      ensures State() == QueuePictureWhenRoom(old(State()), openOk, framePts)
      ensures queued <==> old(size) < pictq.Length && (old(pictq[windex]).hasOverlay || openOk)
      ensures Valid()
    {
      queued := false;
      if size < pictq.Length {
        queued := pictq[windex].hasOverlay || openOk;
        QueuePicture(openOk, framePts);
      }
    }

    /** The ring part of `video_image_display`. */
    method ImageDisplay()
      requires Valid()
      modifies this, pictq
      ensures State() == ConsumePicture(old(State()))
      ensures Valid()
    {
      pictq[rindex] := pictq[rindex].(ready := false);
      rindex := (rindex + 1) % pictq.Length;
      size := size - 1;
    }

    /** `video_open` on slot `index` when it is reached from `video_display`:
        the overlay is created if missing, as far as `openOk` allows. */
    method OpenOverlay(index: int, openOk: bool)
      requires Valid() && 0 <= index < pictq.Length
      modifies pictq
      ensures pictq[..] == old(pictq[..])[index := old(pictq[index]).(hasOverlay := old(pictq[index]).hasOverlay || openOk)]
      ensures Valid()
    {
      if !pictq[index].hasOverlay {
        pictq[index] := pictq[index].(hasOverlay := openOk);
      }
    }

    /** The decoder's exit path (src/_gmovie.c:1839) zeroes the three indices
        and leaves every slot's ready flag as it was. */
    method ResetIndices()
      requires Valid()
      modifies this
      ensures windex == 0 && rindex == 0 && size == 0
      ensures Valid()
    {
      windex, rindex, size := 0, 0, 0;
    }
  }
}
