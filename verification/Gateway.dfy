/** The gateway: bytes from the wire to the pipeline. */
module Gateway {
  import opened Integers
  import opened Bytes
  import opened World
  import opened Commands
  import opened Frames
  import opened WireCodec
  import opened Chain
  import opened Pipeline

  datatype GatewayResult = ParseRejected(error: ParseError) | Handled(submission: Option<Submission>)

  function GatewayStep(a: Authority, limit: FrameLimit, bytes: ByteString): Authority {
    match DecodeFrame(bytes, limit)
    case Err(_) => a
    case Ok(e) => Submitted(a, e)
  }

  /** State changes only on the one canonical frame of an envelope: bytes that are not exactly
      that frame leave session, world and log as they are, and exactly that frame submits it. */
  lemma OnlyCanonicalFramesMatter(a: Authority, limit: FrameLimit, bytes: ByteString)
    ensures forall e :: limit >= 76 && bytes == EncodeFrame(e) ==> GatewayStep(a, limit, bytes) == Submitted(a, e)
    ensures (forall e :: bytes != EncodeFrame(e)) || limit < 76 ==> GatewayStep(a, limit, bytes) == a
  {
    hide DecodeFrame, EncodeFrame, Submitted;
    forall e | limit >= 76 && bytes == EncodeFrame(e)
      ensures GatewayStep(a, limit, bytes) == Submitted(a, e)
    {
      CommandFrameIsExact(bytes, limit, e);
    }
    if DecodeFrame(bytes, limit).Ok? {
      CommandFrameIsExact(bytes, limit, DecodeFrame(bytes, limit).value);
    }
  }

  function GatewayRun(a: Authority, limit: FrameLimit, packets: seq<ByteString>): Authority
    decreases |packets|
  {
    if packets == [] then a else GatewayRun(GatewayStep(a, limit, packets[0]), limit, packets[1..])
  }

  function SubmitAll(a: Authority, es: seq<Envelope>): Authority
    decreases |es|
  {
    if es == [] then a else SubmitAll(Submitted(a, es[0]), es[1..])
  }

  /** Handing the gateway one canonical frame per envelope submits exactly those envelopes, in order. */
  lemma {:induction false} GatewaySubmitsAll(a: Authority, limit: FrameLimit, es: seq<Envelope>)
    requires limit >= 76
    ensures GatewayRun(a, limit, FramesOf(es)) == SubmitAll(a, es)
    decreases |es|
  {
    hide EncodeFrame, Submitted, GatewayStep;
    if es != [] {
      OnlyCanonicalFramesMatter(a, limit, EncodeFrame(es[0]));
      assert FramesOf(es)[1..] == FramesOf(es[1..]);
      GatewaySubmitsAll(Submitted(a, es[0]), limit, es[1..]);
    }
  }

  class AuthoritativeCommandGateway {
    const limit: FrameLimit
    const pipeline: AuthoritativeCommandPipeline

    constructor (limit: FrameLimit)
      ensures this.limit == limit && fresh(pipeline) && fresh(pipeline.evidence)
      ensures pipeline.evidence.View() == EMPTY_LOG
    {
      this.limit := limit;
      pipeline := new AuthoritativeCommandPipeline();
    }

    method Submit(session: CommandSession, world: World, bytes: ByteString) returns (r: GatewayResult)
      requires world.Consistent()
      modifies session, world, pipeline.evidence
      ensures world.Consistent() && world.clock == old(world.clock)
      ensures Authority(session.View(), world.View(), pipeline.evidence.View()) ==
        GatewayStep(Authority(old(session.View()), old(world.View()), old(pipeline.evidence.View())), limit, bytes)
      ensures r == match DecodeFrame(bytes, limit)
        case Err(e) => ParseRejected(e)
        case Ok(e) => Handled(
          if CountsFit(old(world.View()), old(pipeline.evidence.View()))
          then Some(Answer(old(session.View()), old(world.View()), e)) else None)
    {
      hide ParseFrame, DecodeEnvelope, Submitted, Answer;
      var parsed := ParseFrame(bytes, limit);
      if parsed.Err? {
        return ParseRejected(parsed.error);
      }
      var decoded := DecodeCommandEnvelope(parsed.value.payload);
      if decoded.Err? {
        return ParseRejected(decoded.error);
      }
      var submission := pipeline.Submit(session, world, decoded.value);
      r := Handled(submission);
    }
  }
}
