/**
 * The four score counters.  A marble entering a zone reports the zone's tag;
 * the tag is matched against the four configured zone names in a fixed order
 * and the first match gets the point.
 */
module ScoreZones {
  import opened Wrappers

  datatype Zone = TopRight | TopLeft | BottomRight | BottomLeft

  /** The zone tags configured on the manager. */
  datatype ZoneTags = ZoneTags(topRight: string, topLeft: string, bottomRight: string, bottomLeft: string)

  datatype Scores = Scores(tr: int, tl: int, br: int, bl: int)

  /** The counters' field initialisers. */
  const InitialScores: Scores := Scores(0, 0, 0, 0)

  function Get(s: Scores, z: Zone): int {
    match z
    case TopRight => s.tr
    case TopLeft => s.tl
    case BottomRight => s.br
    case BottomLeft => s.bl
  }

  function Total(s: Scores): int {
    s.tr + s.tl + s.br + s.bl
  }

  /** The zone a tag scores for: compared in the order tr, tl, br, bl, first match wins. */
  function MatchZone(tags: ZoneTags, tag: string): (r: Option<Zone>)
    ensures r == Some(TopRight) <==> tag == tags.topRight
    ensures r == Some(TopLeft) <==> tag != tags.topRight && tag == tags.topLeft
    ensures r == Some(BottomRight) <==> tag != tags.topRight && tag != tags.topLeft && tag == tags.bottomRight
    ensures r == Some(BottomLeft) <==>
      tag != tags.topRight && tag != tags.topLeft && tag != tags.bottomRight && tag == tags.bottomLeft
    ensures r == None <==>
      tag != tags.topRight && tag != tags.topLeft && tag != tags.bottomRight && tag != tags.bottomLeft
  {
    if tag == tags.topRight then Some(TopRight)
    else if tag == tags.topLeft then Some(TopLeft)
    else if tag == tags.bottomRight then Some(BottomRight)
    else if tag == tags.bottomLeft then Some(BottomLeft)
    else None
  }

  function Increment(s: Scores, z: Zone): Scores {
    match z
    case TopRight => s.(tr := s.tr + 1)
    case TopLeft => s.(tl := s.tl + 1)
    case BottomRight => s.(br := s.br + 1)
    case BottomLeft => s.(bl := s.bl + 1)
  }

  /**
   * `AddPoint`: the matched zone's counter goes up by exactly one and no other
   * counter moves; an unmatched tag (logged as an error) changes nothing.
   */
  function AddPoint(s: Scores, tags: ZoneTags, tag: string): (r: Scores)
    ensures MatchZone(tags, tag).None? ==> r == s
    ensures MatchZone(tags, tag).Some? ==>
      var z := MatchZone(tags, tag).value;
      && Get(r, z) == Get(s, z) + 1
      && forall other :: other != z ==> Get(r, other) == Get(s, other)
    ensures Total(r) == Total(s) + if MatchZone(tags, tag).Some? then 1 else 0
    ensures forall z :: Get(r, z) >= Get(s, z)
  {
    match MatchZone(tags, tag)
    case Some(z) => Increment(s, z)
    case None => s
  }

  /** `ResetScores`: every counter back to zero. */
  function ResetScores(s: Scores): (r: Scores)
    ensures forall z :: Get(r, z) == 0
    ensures Total(r) == 0
  {
    InitialScores
  }

  /** Points awarded for a run of tags, one after the other. */
  function AddPoints(s: Scores, tags: ZoneTags, hits: seq<string>): Scores
    decreases |hits|
  {
    if |hits| == 0 then s else AddPoints(AddPoint(s, tags, hits[0]), tags, hits[1..])
  }

  /** How many of the tags match some zone. */
  function Matching(tags: ZoneTags, hits: seq<string>): nat
    decreases |hits|
  {
    if |hits| == 0 then 0
    else (if MatchZone(tags, hits[0]).Some? then 1 else 0) + Matching(tags, hits[1..])
  }

  /** Without a reset the counters never go down, and their sum grows by one per matching tag. */
  lemma {:induction false} PointsOnlyAccumulate(s: Scores, tags: ZoneTags, hits: seq<string>)
    decreases |hits|
    ensures Total(AddPoints(s, tags, hits)) == Total(s) + Matching(tags, hits)
    ensures forall z :: Get(AddPoints(s, tags, hits), z) >= Get(s, z)
  {
    if |hits| > 0 {
      PointsOnlyAccumulate(AddPoint(s, tags, hits[0]), tags, hits[1..]);
    }
  }
}
