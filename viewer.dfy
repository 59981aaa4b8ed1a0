/**
 * The message handler of the shape viewer (`execute`): extract the shapes of
 * a message, keep the first 64, and render them when there is at least one.
 *
 * The chat platform is not part of this model: the reply is returned as a
 * value instead of being posted, and an extraction error is returned instead
 * of being thrown to the message watcher.
 */
module Viewer {
  import opened Extractor
  import opened Grid

  /** The most shapes one reply shows. */
  const MaxShapes := 64

  /** What handling one message comes to: nothing, the thrown error, or the
      composed image (its layout and the tiles drawn on it). */
  datatype Reply<D> = Silent | Failed(error: Error) | Image(layout: Layout, tiles: seq<Tile<D>>)

  /** `shapes.slice(0, 64)`: the leading shapes, at most 64 of them. */
  function Cap<D>(shapes: seq<D>): (kept: seq<D>)
    ensures |kept| == if |shapes| < MaxShapes then |shapes| else MaxShapes
    ensures kept == shapes[..|kept|]
  {
    if |shapes| <= MaxShapes then shapes else shapes[..MaxShapes]
  }

  /** `execute`: an extraction error is passed on; a message without shapes gets
      no reply; otherwise the reply is the image of the first 64 shapes, in order,
      each drawn at its row-major grid offset. */
  method Execute<D>(message: string, build: (string, seq<string>) -> seq<D>) returns (reply: Reply<D>)
    ensures Extract(message, build).Err? ==> reply == Failed(ModifierLimitReached)
    ensures reply.Failed? <==> Extract(message, build).Err?
    ensures reply == Silent <==> Extract(message, build) == Ok([])
    ensures reply.Image? ==>
      var all := Extract(message, build).value;
      && Extract(message, build).Ok?
      && |reply.tiles| == |Cap(all)| <= MaxShapes
      && reply.layout == GridLayout(|reply.tiles|)
      && (forall i :: 0 <= i < |reply.tiles| ==> reply.tiles[i].shape == all[i])
      && reply.tiles == Placements(Cap(all), reply.layout.columns)
      && WellPlaced(reply.tiles, reply.layout)
  {
    var extracted := ExtractShapes(message, build);
    if extracted.Err? {
      return Failed(extracted.error);
    }
    var shapes := Cap(extracted.value);
    if |shapes| == 0 {
      return Silent;
    }
    var layout, tiles := RenderShapes(shapes);
    return Image(layout, tiles);
  }

  /** A hundred shapes are cut down to the first 64. */
  lemma CapExample<D>(shapes: seq<D>)
    requires |shapes| == 100
    ensures Cap(shapes) == shapes[..64]
  {
  }
}
