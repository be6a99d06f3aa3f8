/** The consent gate: whether a frame leaves the device, and what is left of it by then. */
module ImageSharing {
  import opened Basics
  import opened Frames
  import opened FrameProcessing

  /** Colour channels are stored clamped; a block edge is at least two. */
  datatype MaskMode = Blackout(color: Pixel) | Pixelation(blockSize: int)

  // ---------- Masking ----------

  function MaskOne(f: Image, rect: Rect, mode: MaskMode): (g: Image)
    requires Sized(f)
    ensures Sized(g) && g.width == f.width && g.height == f.height
  {
    var r := ClampRect(rect, f.width, f.height);
    if r.width < 1 || r.height < 1 then f
    else match mode
      case Blackout(color) => Filled(f, r, color)
      case Pixelation(blockSize) => Pixelated(f, r, Max(2, blockSize))
  }

  function MaskEach(f: Image, rects: seq<Rect>, mode: MaskMode): (g: Image)
    requires Sized(f)
    ensures Sized(g) && g.width == f.width && g.height == f.height
  {
    if rects == [] then f else MaskOne(MaskEach(f, rects[..|rects| - 1], mode), rects[|rects| - 1], mode)
  }

  /** `maskRegions`. */
  method MaskRegions(frame: EdgeFrame, rects: seq<Rect>, mode: MaskMode) returns (out: EdgeFrame)
    requires frame.Valid()
    ensures fresh(out) && fresh(out.data) && out.Valid() && out.Value() == MaskEach(frame.Value(), rects, mode)
    ensures frame.Value() == old(frame.Value())
  {
    ghost var f := frame.Value();
    out := CopyFrame(frame);
    for i := 0 to |rects|
      invariant out.Value() == MaskEach(f, rects[..i], mode)
    {
      assert rects[..i + 1][..i] == rects[..i];
      var r := ClampRect(rects[i], frame.width, frame.height);
      if r.width >= 1 && r.height >= 1 {
        match mode {
          case Blackout(color) => Fill(out, r, color);
          case Pixelation(blockSize) => Pixelate(out, r, Max(2, blockSize));
        }
      }
    }
    assert rects[..|rects|] == rects;
  }

  ghost predicate Covered(rects: seq<Rect>, w: nat, h: nat, x: int, y: int) {
    exists i :: 0 <= i < |rects| && Inside(ClampRect(rects[i], w, h), x, y)
  }

  lemma CoveredByOneMore(rects: seq<Rect>, w: nat, h: nat, x: int, y: int)
    requires rects != []
    ensures Covered(rects, w, h, x, y) <==>
            Covered(rects[..|rects| - 1], w, h, x, y) || Inside(ClampRect(rects[|rects| - 1], w, h), x, y)
  {
    var front := rects[..|rects| - 1];
    hide Inside, ClampRect;
    if Covered(front, w, h, x, y) {
      var i :| 0 <= i < |front| && Inside(ClampRect(front[i], w, h), x, y);
      assert rects[i] == front[i];
    }
    if Covered(rects, w, h, x, y) {
      var i :| 0 <= i < |rects| && Inside(ClampRect(rects[i], w, h), x, y);
      if i < |front| {
        assert front[i] == rects[i];
      }
    }
  }

  /** Masking with a colour replaces the colour of exactly the covered pixels. */
  lemma {:induction false} BlackoutIsUnion(f: Image, rects: seq<Rect>, color: Pixel, x: nat, y: nat)
    requires Sized(f) && x < f.width && y < f.height
    ensures Get(MaskEach(f, rects, Blackout(color)), x, y) ==
            if Covered(rects, f.width, f.height, x, y) then Pixel(color.r, color.g, color.b, Get(f, x, y).a)
            else Get(f, x, y)
    decreases |rects|
  {
    hide Get, ClampRect, Filled;
    if rects != [] {
      var front := rects[..|rects| - 1];
      BlackoutIsUnion(f, front, color, x, y);
      CoveredByOneMore(rects, f.width, f.height, x, y);
      hide Covered;
      FilledGet(MaskEach(f, front, Blackout(color)), ClampRect(rects[|rects| - 1], f.width, f.height), color, x, y);
    }
  }

  // ---------- What is shared ----------

  /** The image handed to the encoder, or nothing when the crop clamps to nothing or `maxEdge` is below one. */
  function Shared(f: Image, crop: Option<Rect>, masks: seq<Rect>, mode: MaskMode, maxEdge: int): Option<Image>
    requires Sized(f)
  {
    var r := CropArea(f, crop);
    if r.width < 1 || r.height < 1 || maxEdge < 1 then None
    else
      var cropped := if crop.Some? then Cropped(f, r) else f;
      Some(Downscaled(MaskEach(cropped, masks, mode), maxEdge))
  }

  function CropArea(f: Image, crop: Option<Rect>): Area {
    if crop.Some? then ClampRect(crop.value, f.width, f.height) else Area(0, 0, f.width, f.height)
  }

  datatype Policy = Off | OnExplicitConsent

  datatype Request = Request(crop: Option<Rect>, masks: seq<Rect>, pixelate: bool, maxEdge: Option<int>)

  function ModeOf(request: Request): MaskMode {
    if request.pixelate then Pixelation(12) else Blackout(Pixel(0, 0, 0, 0))
  }

  function EdgeLimit(request: Request, defaultMaxEdge: Option<int>): int {
    request.maxEdge.GetOr(defaultMaxEdge.GetOr(1024))
  }

  /** What is left of the frame before downscaling: the crop with its regions masked as the request says. */
  function Redacted(f: Image, request: Request): (g: Image)
    requires Sized(f) && CropArea(f, request.crop).width >= 1 && CropArea(f, request.crop).height >= 1
    ensures Sized(g)
  {
    var cropped := if request.crop.Some? then Cropped(f, CropArea(f, request.crop)) else f;
    MaskEach(cropped, request.masks, ModeOf(request))
  }

  /** The image an answer to this request hands to the encoder. */
  function SharedFor(f: Image, request: Request, defaultMaxEdge: Option<int>): (g: Option<Image>)
    requires Sized(f)
  {
    Shared(f, request.crop, request.masks, ModeOf(request), EdgeLimit(request, defaultMaxEdge))
  }

  datatype Sharing = NotShared | Failed | ToEncoder(frame: EdgeFrame, cropped: bool, downscaled: bool,
                                                    maskedRegions: nat)

  /** `maybeShareImage`: nothing without the policy, a request, a local authorization and an encoder; otherwise the
      frame is cropped, masked, then downscaled, and only that reaches the encoder. The caller's frame is untouched. */
  method MaybeShareImage(frame: EdgeFrame, request: Option<Request>, authorized: bool, policy: Policy, hasEncoder: bool,
                         defaultMaxEdge: Option<int>)
    returns (r: Sharing)
    requires frame.Valid()
    ensures r.NotShared? <==> policy == Off || request.None? || !authorized || !hasEncoder
    ensures !r.NotShared? ==>
              var shared := SharedFor(frame.Value(), request.value, defaultMaxEdge);
              && (r.Failed? <==> shared.None?)
              && (r.ToEncoder? ==> fresh(r.frame) && r.frame.Valid() && Some(r.frame.Value()) == shared)
              && (r.ToEncoder? ==> r.cropped == request.value.crop.Some? && r.maskedRegions == |request.value.masks|)
              && (r.ToEncoder? ==>
                    var area := CropArea(frame.Value(), request.value.crop);
                    r.downscaled <==> (r.frame.width, r.frame.height) != (area.width, area.height))
    ensures frame.Value() == old(frame.Value())
  {
    if policy == Off || request.None? || !authorized || !hasEncoder {
      return NotShared;
    }
    var asked := request.value;
    var processed := frame;
    if asked.crop.Some? {
      var cropped := CropFrame(processed, asked.crop.value);
      if cropped.None? {
        return Failed;
      }
      processed := cropped.value;
    }
    hide Cropped, Downscaled, MaskOne;
    if |asked.masks| > 0 {
      processed := MaskRegions(processed, asked.masks, ModeOf(asked));
    }
    var before := processed;
    var downscaled := DownscaleFrame(processed, EdgeLimit(asked, defaultMaxEdge));
    if downscaled.None? {
      return Failed;
    }
    processed := downscaled.value;
    var resized := processed.width != before.width || processed.height != before.height;
    return ToEncoder(processed, asked.crop.Some?, resized, |asked.masks|);
  }

  // ---------- Redaction ----------

  /** In an area, two frames agree on alpha, and on colour wherever no mask covers, in the area's own coordinates. */
  ghost predicate AgreeOutside(f: Image, g: Image, r: Area, masks: seq<Rect>) {
    forall x, y :: 0 <= x < r.width && 0 <= y < r.height ==> AgreeAt(f, g, r, masks, x, y)
  }

  ghost predicate AgreeAt(f: Image, g: Image, r: Area, masks: seq<Rect>, x: int, y: int) {
    var p, q := Get(f, r.x + x, r.y + y), Get(g, r.x + x, r.y + y);
    p.a == q.a && (!Covered(masks, r.width, r.height, x, y) ==> p == q)
  }

  lemma MaskedAlike(f: Image, g: Image, masks: seq<Rect>, color: Pixel)
    requires Sized(f) && Sized(g) && f.width == g.width && f.height == g.height
    requires AgreeOutside(f, g, Area(0, 0, f.width, f.height), masks)
    ensures MaskEach(f, masks, Blackout(color)) == MaskEach(g, masks, Blackout(color))
  {
    var mode := Blackout(color);
    hide Get, Covered, MaskEach;
    forall x, y | 0 <= x < f.width && 0 <= y < f.height
      ensures Get(MaskEach(f, masks, mode), x, y) == Get(MaskEach(g, masks, mode), x, y)
    {
      BlackoutIsUnion(f, masks, color, x, y);
      BlackoutIsUnion(g, masks, color, x, y);
      assert AgreeAt(f, g, Area(0, 0, f.width, f.height), masks, x, y);
    }
    SameImage(MaskEach(f, masks, mode), MaskEach(g, masks, mode));
  }

  lemma CroppedGet(f: Image, r: Area, x: nat, y: nat)
    requires x < r.width && y < r.height
    ensures Get(Cropped(f, r), x, y) == Get(f, r.x + x, r.y + y)
  {
    BuildGet(r.width, r.height, (x: int, y: int) => Get(f, r.x + x, r.y + y), x, y);
  }

  /** What a mask covers never reaches the encoder: frames that differ only under the masks, or outside the crop, are
      shared as the same image. */
  lemma RedactionHides(f: Image, g: Image, crop: Option<Rect>, masks: seq<Rect>, color: Pixel, maxEdge: int)
    requires Sized(f) && Sized(g) && f.width == g.width && f.height == g.height
    requires AgreeOutside(f, g, CropArea(f, crop), masks)
    ensures Shared(f, crop, masks, Blackout(color), maxEdge) == Shared(g, crop, masks, Blackout(color), maxEdge)
  {
    var r := CropArea(f, crop);
    if r.width >= 1 && r.height >= 1 && maxEdge >= 1 {
      hide ClampRect, MaskEach, Covered, Downscaled;
      if crop.Some? {
        CroppedAgree(f, g, r, masks);
        MaskedAlike(Cropped(f, r), Cropped(g, r), masks, color);
      } else {
        MaskedAlike(f, g, masks, color);
      }
    }
  }

  /** A request that does not ask for pixelation hides: frames that differ only under its masks, or outside its crop,
      reach the encoder as the same image. */
  lemma RequestHides(f: Image, g: Image, request: Request, defaultMaxEdge: Option<int>)
    requires Sized(f) && Sized(g) && f.width == g.width && f.height == g.height && !request.pixelate
    requires AgreeOutside(f, g, CropArea(f, request.crop), request.masks)
    ensures SharedFor(f, request, defaultMaxEdge) == SharedFor(g, request, defaultMaxEdge)
  {
    RedactionHides(f, g, request.crop, request.masks, Pixel(0, 0, 0, 0), EdgeLimit(request, defaultMaxEdge));
    hide Shared, AgreeOutside;
  }

  /** What is shared is the redacted crop, downscaled to the edge the request names, or else the device's default, or
      else 1024; it is nothing exactly if the crop is empty or that edge is below one. */
  lemma SharedIsRedacted(f: Image, request: Request, defaultMaxEdge: Option<int>, maxEdge: int)
    requires Sized(f)
    requires match request.maxEdge {
               case Some(edge) => maxEdge == edge
               case None => maxEdge == (if defaultMaxEdge.Some? then defaultMaxEdge.value else 1024)
             }
    ensures var area := CropArea(f, request.crop);
            SharedFor(f, request, defaultMaxEdge) ==
            if area.width < 1 || area.height < 1 || maxEdge < 1 then None
            else Some(Downscaled(Redacted(f, request), maxEdge))
  {
    hide Downscaled, MaskEach, ClampRect;
  }

  /** Without pixelation the redacted crop is black under the masks, each pixel with its own alpha, and the frame's own
      elsewhere. */
  lemma BlackUnderMasks(f: Image, request: Request, x: nat, y: nat)
    requires Sized(f) && !request.pixelate
    requires x < CropArea(f, request.crop).width && y < CropArea(f, request.crop).height
    ensures var area := CropArea(f, request.crop);
            var own := Get(f, area.x + x, area.y + y);
            Get(Redacted(f, request), x, y) ==
            if Covered(request.masks, area.width, area.height, x, y) then Pixel(0, 0, 0, own.a) else own
  {
    var area := CropArea(f, request.crop);
    hide ClampRect, Covered, Get, MaskEach;
    if request.crop.Some? {
      CroppedGet(f, area, x, y);
      BlackoutIsUnion(Cropped(f, area), request.masks, Pixel(0, 0, 0, 0), x, y);
    } else {
      BlackoutIsUnion(f, request.masks, Pixel(0, 0, 0, 0), x, y);
    }
  }

  /** With pixelation each mask in turn lays a mosaic over what the ones before have left: every pixel in it has the
      mean colour of its block of 12 by 12, counted from the mask's corner and cut off at its edges. */
  lemma MosaicUnderMasks(f: Image, request: Request, last: Rect, x: nat, y: nat)
    requires Sized(f) && request.pixelate
    requires x < CropArea(f, request.crop).width && y < CropArea(f, request.crop).height
    ensures var area := CropArea(f, request.crop);
            var before, r := Redacted(f, request), ClampRect(last, area.width, area.height);
            Get(Redacted(f, request.(masks := request.masks + [last])), x, y) ==
            if Inside(r, x, y) then
              var mean := BlockMean(before, r, 12, x, y);
              Pixel(mean.r, mean.g, mean.b, Get(before, x, y).a)
            else
              Get(before, x, y)
  {
    var masks := request.masks + [last];
    var before := Redacted(f, request);
    assert masks[..|masks| - 1] == request.masks;
    hide MaskEach, BlockMean, Get, Cropped;
    var cropped := if request.crop.Some? then Cropped(f, CropArea(f, request.crop)) else f;
    MaskOneMore(cropped, request.masks, last, ModeOf(request));
    var r := ClampRect(last, before.width, before.height);
    hide ClampRect;
    if r.width >= 1 && r.height >= 1 {
      PixelatedGet(before, r, 12, x, y);
    }
  }

  lemma MaskOneMore(f: Image, masks: seq<Rect>, last: Rect, mode: MaskMode)
    requires Sized(f)
    ensures MaskEach(f, masks + [last], mode) == MaskOne(MaskEach(f, masks, mode), last, mode)
  {
    assert (masks + [last])[..|masks + [last]| - 1] == masks;
    hide MaskOne;
  }

  lemma CroppedAgree(f: Image, g: Image, r: Area, masks: seq<Rect>)
    requires AgreeOutside(f, g, r, masks) && r.width >= 1 && r.height >= 1
    ensures AgreeOutside(Cropped(f, r), Cropped(g, r), Area(0, 0, r.width, r.height), masks)
  {
    hide Get, Covered, Cropped;
    forall x, y | 0 <= x < r.width && 0 <= y < r.height
      ensures AgreeAt(Cropped(f, r), Cropped(g, r), Area(0, 0, r.width, r.height), masks, x, y)
    {
      CroppedGet(f, r, x, y);
      CroppedGet(g, r, x, y);
      assert AgreeAt(f, g, r, masks, x, y);
    }
  }

  // ---------- Means stay within their boxes ----------

  /** Every pixel of a downscaled image lies between any bounds of the source box it stands for. */
  lemma DownscaledBetween(f: Image, tw: nat, th: nat, tx: nat, ty: nat, lo: Pixel, hi: Pixel)
    requires Sized(f) && tx < tw <= f.width && ty < th <= f.height
    requires forall x, y :: InBox(x, tx, f.width, tw) && InBox(y, ty, f.height, th) ==> Between(lo, Get(f, x, y), hi)
    ensures Between(lo, Get(Resampled(f, tw, th), tx, ty), hi)
  {
    var x0, x1 := BoxStart(tx, f.width, tw), BoxEnd(tx, f.width, tw);
    var y0, y1 := BoxStart(ty, f.height, th), BoxEnd(ty, f.height, th);
    BoxFits(tx, f.width, tw);
    BoxFits(ty, f.height, th);
    BuildGet(tw, th, (x: int, y: int) =>
      BoxMean(f, BoxStart(x, f.width, tw), BoxEnd(x, f.width, tw), BoxStart(y, f.height, th), BoxEnd(y, f.height, th)),
      tx, ty);
    forall x, y | x0 <= x < x1 && y0 <= y < y1 ensures Between(lo, Get(f, x, y), hi) {
      assert InBox(x, tx, f.width, tw) && InBox(y, ty, f.height, th);
    }
    hide Get, Build, BoxSum, Between, BoxStart, BoxEnd;
    MeanOfBoxBetween(f, x0, x1, y0, y1, lo, hi);
  }
}
