/**
 * The route page's geometry handling: the route string of a selected feature is
 * cut into comma-separated pieces, each piece is trimmed and cut into
 * space-separated tokens (one "segment" per piece), and every segment becomes a
 * directions request together with the options of the renderer that draws it.
 */
module RoutePage {
  import opened Wrappers
  import opened JsString

  /** Characters dropped from the front of the route string. */
  const PrefixLength := 12
  /** Characters dropped from the end of the route string. */
  const SuffixLength := 2

  /**
   * The coordinate list inside the route string:
   * `routeGeom.substring(12, routeGeom.length - 2)`.
   */
  function RouteBody(routeGeom: string): (body: string)
    ensures |routeGeom| >= PrefixLength + SuffixLength ==> body == routeGeom[PrefixLength..|routeGeom| - SuffixLength]
    ensures |routeGeom| == PrefixLength + 1 ==> body == routeGeom[PrefixLength - 1..PrefixLength]
    ensures SuffixLength <= |routeGeom| <= PrefixLength ==> body == routeGeom[|routeGeom| - SuffixLength..]
    ensures |routeGeom| < SuffixLength ==> body == routeGeom
  {
    Substring(routeGeom, PrefixLength, |routeGeom| - SuffixLength)
  }

  /** The route body cut at every comma: `body.split(",")`. */
  function Pieces(routeGeom: string): (pieces: seq<string>)
    ensures |pieces| == Count(RouteBody(routeGeom), ',') + 1
    ensures SeparatorFree(pieces, ',')
    ensures Join(pieces, ',') == RouteBody(routeGeom)
  {
    Split(RouteBody(routeGeom), ',')
  }

  /** One piece as a segment: `piece.trim().split(' ')`. */
  function Tokens(piece: string): (segment: seq<string>)
    ensures |segment| >= 1
    ensures SeparatorFree(segment, ' ')
    ensures Join(segment, ' ') == Trim(piece)
    ensures |segment| == Count(Trim(piece), ' ') + 1
  {
    Split(Trim(piece), ' ')
  }

  /** The whole of line 32: one segment per comma-separated piece, in order. */
  function Segments(routeGeom: string): (segments: seq<seq<string>>)
    ensures |segments| == |Pieces(routeGeom)|
    ensures forall i :: 0 <= i < |segments| ==>
      |segments[i]| >= 1
      && SeparatorFree(segments[i], ' ')
      && Join(segments[i], ' ') == Trim(Pieces(routeGeom)[i])
  {
    var pieces := Pieces(routeGeom);
    seq(|pieces|, i requires 0 <= i < |pieces| => Tokens(pieces[i]))
  }

  /** The travel mode every request carries. */
  datatype TravelMode = Driving

  /** The request handed to the directions service for one segment. */
  datatype DirectionsRequest = DirectionsRequest(
    origin: Option<string>,
    destination: Option<string>,
    travelMode: TravelMode)

  /** The options object passed to the renderer of one segment. */
  datatype RendererOptions = RendererOptions(
    preserveViewport: bool,
    suppressMarkers: bool,
    routeIndex: int)

  /** The options shared by every renderer, before the route index is filled in. */
  const BaseRendererOptions := RendererOptions(true, true, 0)

  /** `{origin: segment[0], destination: segment[1], travelMode: DRIVING}`. */
  function SegmentRequest(segment: seq<string>): (request: DirectionsRequest)
    ensures request.origin.Some? <==> |segment| >= 1
    ensures request.destination.Some? <==> |segment| >= 2
    ensures |segment| >= 1 ==> request.origin.value == segment[0]
    ensures |segment| >= 2 ==> request.destination.value == segment[1]
    ensures request.travelMode == Driving
  {
    DirectionsRequest(At(segment, 0), At(segment, 1), Driving)
  }

  /** `{...base, routeIndex: i}`: every field of `base` except the route index, which becomes `i`. */
  function WithRouteIndex(base: RendererOptions, i: int): (options: RendererOptions)
    ensures options.routeIndex == i
    ensures options.preserveViewport == base.preserveViewport
    ensures options.suppressMarkers == base.suppressMarkers
  {
    base.(routeIndex := i)
  }

  /** What the page sets up for one segment: its request and its renderer's options. */
  datatype Leg = Leg(request: DirectionsRequest, renderer: RendererOptions)

  /**
   * The legs of `plotRoute`, one per segment and in segment order: leg `i` asks for
   * directions from token 0 to token 1 of segment `i` and is drawn by a renderer
   * with route index `i`.
   */
  function PlanRoute(routeGeom: string): (legs: seq<Leg>)
    ensures |legs| == |Segments(routeGeom)|
    ensures |legs| == Count(RouteBody(routeGeom), ',') + 1
    ensures forall i :: 0 <= i < |legs| ==>
      legs[i].request.origin == Some(Segments(routeGeom)[i][0])
      && legs[i].request.destination == (if |Segments(routeGeom)[i]| >= 2 then Some(Segments(routeGeom)[i][1]) else None)
      && legs[i].request.travelMode == Driving
    ensures forall i :: 0 <= i < |legs| ==>
      legs[i].renderer == RendererOptions(true, true, i)
  {
    var segments := Segments(routeGeom);
    seq(|segments|, i requires 0 <= i < |segments| =>
      Leg(SegmentRequest(segments[i]), WithRouteIndex(BaseRendererOptions, i)))
  }

  /**
   * A route string made of a 12-character header, a comma-separated list of
   * comma-free coordinates and a 2-character trailer yields those coordinates as
   * its pieces, unchanged and in order.
   */
  lemma PiecesOfWrappedList(header: string, coordinates: seq<string>, trailer: string)
    requires |header| == PrefixLength && |trailer| == SuffixLength
    requires |coordinates| >= 1
    requires SeparatorFree(coordinates, ',')
    ensures Pieces(header + Join(coordinates, ',') + trailer) == coordinates
  {
    var body := Join(coordinates, ',');
    var routeGeom := header + body + trailer;
    assert routeGeom[PrefixLength..|routeGeom| - SuffixLength] == body;
    SplitJoin(coordinates, ',');
  }

  /** Leg `i` is built from the tokens of piece `i` alone. */
  lemma LegOfPiece(routeGeom: string, i: nat)
    requires i < |Pieces(routeGeom)|
    ensures i < |Segments(routeGeom)| && Segments(routeGeom)[i] == Tokens(Pieces(routeGeom)[i])
    ensures i < |PlanRoute(routeGeom)|
    ensures PlanRoute(routeGeom)[i].request == SegmentRequest(Tokens(Pieces(routeGeom)[i]))
  {
  }

  /** A piece that trims to two space-free words separated by one space is those two tokens. */
  lemma TokensOfPair(piece: string, lng: string, lat: string)
    requires ' ' !in lng && ' ' !in lat
    requires Trim(piece) == lng + " " + lat
    ensures Tokens(piece) == [lng, lat]
  {
    var parts := [lng, lat];
    assert Join(parts, ' ') == lng + " " + lat by {
      assert parts[1..] == [lat];
    }
    SplitJoin(parts, ' ');
  }

  /**
   * A coordinate piece `lng lat` (after trimming) becomes a request whose origin is
   * the longitude and whose destination is the latitude of that same coordinate.
   */
  lemma CoordinatePairLeg(routeGeom: string, i: nat, lng: string, lat: string)
    requires i < |Pieces(routeGeom)|
    requires ' ' !in lng && ' ' !in lat
    requires Trim(Pieces(routeGeom)[i]) == lng + " " + lat
    ensures PlanRoute(routeGeom)[i].request == DirectionsRequest(Some(lng), Some(lat), Driving)
    ensures PlanRoute(routeGeom)[i].renderer.routeIndex == i
  {
    LegOfPiece(routeGeom, i);
    TokensOfPair(Pieces(routeGeom)[i], lng, lat);
  }

  /**
   * A piece with a run of `k >= 2` spaces between its two words gets an empty
   * destination: segment `i` is the first word, `k - 1` empty tokens and the
   * second word.
   */
  lemma SpaceRunLeg(routeGeom: string, i: nat, first: string, k: nat, second: string)
    requires i < |Pieces(routeGeom)|
    requires k >= 2
    requires ' ' !in first && ' ' !in second
    requires Trim(Pieces(routeGeom)[i]) == first + Repeat(' ', k) + second
    ensures Segments(routeGeom)[i] == [first] + Empties(k - 1) + [second]
    ensures PlanRoute(routeGeom)[i].request == DirectionsRequest(Some(first), Some(""), Driving)
  {
    LegOfPiece(routeGeom, i);
    var tokens := [first] + Empties(k - 1) + [second];
    SplitRun(first, k, second, ' ');
    assert Tokens(Pieces(routeGeom)[i]) == tokens;
    assert tokens[0] == first && tokens[1] == "";
  }

  /**
   * A piece with no space after trimming is a one-token segment, so its request
   * has an origin and no destination.
   */
  lemma SingleTokenLeg(routeGeom: string, i: nat)
    requires i < |Pieces(routeGeom)|
    requires ' ' !in Trim(Pieces(routeGeom)[i])
    ensures Segments(routeGeom)[i] == [Trim(Pieces(routeGeom)[i])]
    ensures PlanRoute(routeGeom)[i].request == DirectionsRequest(Some(Trim(Pieces(routeGeom)[i])), None, Driving)
  {
    LegOfPiece(routeGeom, i);
    SplitOfSeparatorFree(Trim(Pieces(routeGeom)[i]), ' ');
  }
}
