/** SubParser and Parser as objects: chunked buffers, statuses and the current sub-parser are state that the
    calls update. Every call is tied to the steps of Tokenizer and ChunkedDelimiter. */
module SubParsers {
  import opened Bytes
  import opened Search
  import opened Chunks
  import opened BChunks
  import opened Delimiters
  import opened ChunkedDelimiter
  import opened Tokenizer

  /** parse() as a recorder: it stores the parsed buffer and answers from what was stored. */
  class Recorder {
    const protocol: Protocol
    var tokens: Tokens

    constructor (protocol: Protocol)
      ensures this.protocol == protocol && tokens == []
    {
      this.protocol := protocol;
      tokens := [];
    }

    method Parse(piece: seq<byte>) returns (r: ParseResult)
      modifies this
      ensures tokens == old(tokens) + [piece] && r == protocol.verdict(tokens)
    {
      tokens := tokens + [piece];
      r := protocol.verdict(tokens);
    }
  }

  /** appendToUnparsedBuffer hands over at most what the byte limit leaves; the append goes through whole exactly
      when the chunks suffice. */
  lemma AppendGoesThrough(cs: seq<Chunk>, x: seq<byte>)
    requires x != []
    ensures Holdable(|cs|, |x|) <==> |x| <= Room(DEFAULTS, cs) * DEFAULTS.maxChunkSize
    ensures Holdable(|cs|, |x|) ==> |Appended(cs, x)| == |cs| + ChunksFor(|x|, DEFAULTS.maxChunkSize)
  {
    ChunksForRoom(|x|, DEFAULTS.maxChunkSize, Room(DEFAULTS, cs));
    if Holdable(|cs|, |x|) {
      AddedCount(cs, x, DEFAULTS.maxChunkSize, Room(DEFAULTS, cs));
    }
  }

  class SubParser {
    const recorder: Recorder
    const kind: Kind
    const unparsedBuffer: Container
    var delimiterFound: seq<byte>
    var parseStatus: ParseResult
    var streamEnded: bool

    /** The buffer is a B_Chunks as its constructor leaves it, limited to kind.max bytes. */
    ghost predicate Valid()
      reads this, unparsedBuffer
    {
      && unparsedBuffer.Counted()
      && unparsedBuffer.Bounds() == DEFAULTS && unparsedBuffer.maxSize == kind.max
      && ValidKind(kind)
    }

    constructor (recorder: Recorder, kind: Kind)
      requires ValidKind(kind)
      ensures this.recorder == recorder && this.kind == kind && fresh(unparsedBuffer)
      ensures Valid() && Value() == Fresh(kind) && unparsedBuffer.chunks == []
    {
      this.recorder, this.kind := recorder, kind;
      delimiterFound, parseStatus, streamEnded := [], GetMoreData, false;
      var buffer := new Container(DEFAULTS.maxChunkSize, DEFAULTS.maxChunks);
      buffer.maxSize := kind.max;
      unparsedBuffer := buffer;
    }

    ghost function Value(): Sub
      reads this, unparsedBuffer
    {
      Sub(kind, Flat(unparsedBuffer.chunks), |unparsedBuffer.chunks|, streamEnded)
    }

    /** The bytes m_parsedBuffer refers to: the first n of the buffer. */
    method Parsed(n: nat) returns (piece: seq<byte>)
      requires Valid() && n <= |Flat(unparsedBuffer.chunks)|
      ensures piece == Flat(unparsedBuffer.chunks)[..n]
    {
      var r := unparsedBuffer.CopyToStream(n, 0);
      piece := r.GetOr([]);
    }

    method AppendToUnparsedBuffer(data: seq<byte>) returns (appended: Option<nat>)
      requires Valid()
      modifies unparsedBuffer`chunks, unparsedBuffer`containerBytes
      ensures Valid()
      ensures var prev := old(unparsedBuffer.chunks);
              var x := Taken(Flat(prev), kind.max, data);
              if Overflows(Flat(prev), kind.max, data) then appended.None? && unparsedBuffer.chunks == prev
              else if !Holdable(|prev|, |x|) then appended.None? && unparsedBuffer.chunks == []
              else
                && appended == Some(|x|) && unparsedBuffer.chunks == Appended(prev, x)
                && Flat(unparsedBuffer.chunks) == Flat(prev) + x
                && |unparsedBuffer.chunks| == |prev| + ChunksFor(|x|, DEFAULTS.maxChunkSize)
    {
      ghost var prev := unparsedBuffer.chunks;
      ghost var x := Taken(Flat(prev), kind.max, data);
      var size := unparsedBuffer.containerBytes;
      var leftSize := if size > kind.max then 0 else kind.max - size;
      if leftSize == 0 && data != [] {
        return None;
      }
      var count := Min(|data|, leftSize);
      assert x == data[..count];
      hide Flat, ChunksFor;
      if count > 0 {
        AppendGoesThrough(prev, x);
        appended := unparsedBuffer.Append(data[..count]);
        if appended.None? || appended.value != count {
          unparsedBuffer.Clear();
          return None;
        }
        assert x[..count] == x;
      } else {
        assert x == [] && Flat(prev) + x == Flat(prev);
        assert Appended(prev, x) == prev && ChunksFor(0, DEFAULTS.maxChunkSize) == 0;
        appended := Some(0);
      }
    }

    method ParseByDelimiter(data: seq<byte>) returns (displaced: Option<nat>)
      requires Valid() && kind.Delim?
      modifies this`parseStatus, unparsedBuffer`chunks, unparsedBuffer`containerBytes, recorder
      ensures Valid()
      ensures Follows(FeedDelimiter(recorder.protocol, old(recorder.tokens), old(Value()), streamEnded, data),
                      displaced, old(unparsedBuffer.chunks), old(recorder.tokens), old(parseStatus))
    {
      hide Flat, Holdable, ChunksFor, First, Appended, Displacement;
      var prevSize := unparsedBuffer.containerBytes;
      var appended := AppendToUnparsedBuffer(data);
      if appended.None? {
        return None;
      }
      var toDisplace := appended.value;
      var needle := FindDelimiter(kind.delim);
      if needle.Some? {
        var piece := Parsed(needle.value);
        parseStatus := recorder.Parse(piece);
        unparsedBuffer.Clear();
        EmptyIsTiled();
        toDisplace := Displacement(needle.value, prevSize, |kind.delim|);
      } else if streamEnded {
        ghost var b := Flat(unparsedBuffer.chunks);
        var piece := Parsed(unparsedBuffer.containerBytes);
        assert b[..|b|] == b;
        parseStatus := recorder.Parse(piece);
        unparsedBuffer.Clear();
        EmptyIsTiled();
      }
      return Some(toDisplace);
    }

    /** find over the whole buffer. */
    method FindDelimiter(delim: seq<byte>) returns (pos: Option<nat>)
      requires Valid() && 0 < |delim| < SIZE_T
      ensures pos == First(Flat(unparsedBuffer.chunks), delim, 0)
      ensures pos.Some? ==> pos.value + |delim| <= |Flat(unparsedBuffer.chunks)|
    {
      FindWholeContainer(Flat(unparsedBuffer.chunks), delim, 0);
      hide Flat, FindSpec;
      pos := unparsedBuffer.Find(delim, 0, 0);
    }

    method ParseBySize(data: seq<byte>) returns (displaced: Option<nat>)
      requires Valid() && kind.Fixed?
      modifies this`parseStatus, unparsedBuffer`chunks, unparsedBuffer`containerBytes, recorder
      ensures Valid()
      ensures Follows(FeedSize(recorder.protocol, old(recorder.tokens), old(Value()), data),
                      displaced, old(unparsedBuffer.chunks), old(recorder.tokens), old(parseStatus))
    {
      hide Flat, Holdable, ChunksFor, Appended;
      EmptyIsTiled();
      if data == [] {
        parseStatus := GotoNextSubParser;
        unparsedBuffer.Clear();
        return Some(0);
      }
      var appended := AppendToUnparsedBuffer(data);
      if appended.None? {
        return None;
      }
      if unparsedBuffer.containerBytes >= kind.max {
        ghost var b := Flat(unparsedBuffer.chunks);
        var piece := Parsed(unparsedBuffer.containerBytes);
        assert b[..|b|] == b;
        parseStatus := recorder.Parse(piece);
        unparsedBuffer.Clear();
      }
      return appended;
    }

    /** The state agrees with the step `f`; the status is only written when something was parsed or skipped. */
    ghost predicate Follows(f: Fed, displaced: Option<nat>, was: seq<Chunk>, ts: Tokens, status: ParseResult)
      reads this, unparsedBuffer, recorder
    {
      match f
      case Refused(cleared) =>
        && displaced.None? && unparsedBuffer.chunks == (if cleared then [] else was)
        && recorder.tokens == ts && parseStatus == status
      case Fed(n, left, chunks, token, verdict) =>
        && displaced == Some(n)
        && Flat(unparsedBuffer.chunks) == left && |unparsedBuffer.chunks| == chunks
        && recorder.tokens == (if token.Some? then ts + [token.value] else ts)
        && parseStatus == (if token.None? && verdict == GetMoreData then status else verdict)
    }

    method WriteIntoSubParser(data: seq<byte>) returns (displaced: Option<nat>)
      requires Valid()
      modifies this, unparsedBuffer`chunks, unparsedBuffer`containerBytes, recorder
      ensures Valid() && streamEnded == (old(streamEnded) || data == [])
      ensures Follows(Feed(recorder.protocol, old(recorder.tokens), old(Value()), data),
                      displaced, old(unparsedBuffer.chunks), old(recorder.tokens), old(parseStatus))
    {
      hide Flat;
      if data == [] {
        streamEnded := true;
      }
      match kind
      case Delim(_, _) => displaced := ParseByDelimiter(data);
      case Fixed(_) => displaced := ParseBySize(data);
    }

    /** getLastBytesInCommon: the last v bytes are copied out of the container into a fresh block and compared with
        the start of the boundary, for every v downwards. A copy that fails or falls short is not noticed. */
    method GetLastBytesInCommon(boundary: seq<byte>, block: Allocation) returns (common: nat)
      requires Valid() && |boundary| > 0
      ensures common == ScannedBorder(unparsedBuffer.chunks, boundary, block)
    {
      hide Flat, Copied, Over, Garbage;
      ghost var cs := unparsedBuffer.chunks;
      var size := unparsedBuffer.containerBytes;
      var v := Min(size, |boundary| - 1);
      while v != 0
        invariant 0 <= v <= size && v < |boundary|
        invariant TailScan(cs, boundary, v, block) == ScannedBorder(cs, boundary, block)
      {
        var copied := unparsedBuffer.CopyOut(v, size - v);
        if Over(copied.GetOr([]), Garbage(block, v)) == boundary[..v] {
          return v;
        }
        v := v - 1;
      }
      return 0;
    }

    /** parseDirectDelimiter with parse() recording every piece it is given. */
    method ParseDirectDelimiter(delim: seq<byte>, data: seq<byte>, block: Allocation) returns (displaced: Option<nat>)
      requires Valid() && 0 < |delim| < SIZE_T
      modifies this, unparsedBuffer`chunks, unparsedBuffer`containerBytes, recorder
      ensures Valid()
      ensures match ChunkStep(delim, kind.max, Chunked(old(unparsedBuffer.chunks), Join(old(recorder.tokens)), false), data, block)
              case None =>
                && displaced.None? && recorder.tokens == old(recorder.tokens)
                && unparsedBuffer.chunks == (if Overflows(old(Flat(unparsedBuffer.chunks)), kind.max, data)
                                             then old(unparsedBuffer.chunks) else [])
              case Some((n, next)) =>
                && displaced == Some(n) && unparsedBuffer.chunks == next.buf
                && Join(recorder.tokens) == next.delivered
                && (delimiterFound == delim <==> next.found)
                && parseStatus == recorder.protocol.verdict(recorder.tokens)
    {
      hide Flat, Holdable, ChunksFor, First, Appended, ScannedBorder, Displaced, Taken, Overflows, Join, Displacement;
      var prevSize := unparsedBuffer.containerBytes;
      delimiterFound := [];
      var appended := AppendToUnparsedBuffer(data);
      if appended.None? {
        return None;
      }
      var delimPos := FindDelimiter(delim);
      if delimPos.None? {
        var possible := GetLastBytesInCommon(delim, block);
        var cut := unparsedBuffer.containerBytes - possible;
        var piece := Parsed(cut);
        JoinSnoc(recorder.tokens, piece);
        parseStatus := recorder.Parse(piece);
        if possible == 0 {
          unparsedBuffer.Clear();
        } else {
          var _ := unparsedBuffer.Displace(cut);
        }
        return appended;
      }
      delimiterFound := delim;
      var piece := Parsed(delimPos.value);
      JoinSnoc(recorder.tokens, piece);
      parseStatus := recorder.Parse(piece);
      unparsedBuffer.Clear();
      return Some(Displacement(delimPos.value, prevSize, |delim|));
    }
  }

  lemma {:induction false} JoinSnoc(ts: seq<seq<byte>>, t: seq<byte>)
    ensures Join(ts + [t]) == Join(ts) + t
  {
    if ts == [] {
      assert ts + [t] == [t] && Join([t]) == t + Join([t][1..]) == t;
    } else {
      assert (ts + [t])[1..] == ts[1..] + [t];
      JoinSnoc(ts[1..], t);
      ConcatAssoc(ts[0], Join(ts[1..]), t);
    }
  }

  class Parser {
    const protocol: Protocol
    const recorder: Recorder
    var current: SubParser?
    var finished: bool

    constructor (protocol: Protocol, kind: Kind)
      requires ValidKind(kind)
      ensures this.protocol == protocol && Wired() && fresh(Frame())
      ensures Value() == State(Some(Fresh(kind)), [], false)
    {
      this.protocol := protocol;
      var rec := new Recorder(protocol);
      recorder := rec;
      current := new SubParser(rec, kind);
      finished := false;
    }

    /** All sub-parsers report to the same recorder. */
    ghost predicate Wired()
      reads this, current, if current == null then {} else {current.unparsedBuffer}
    {
      recorder.protocol == protocol && (current != null ==> current.recorder == recorder && current.Valid())
    }

    /** The objects that the calls write to. */
    ghost function Frame(): set<object>
      reads this, current
    {
      {recorder} + if current == null then {} else {current, current.unparsedBuffer}
    }

    ghost function Value(): State
      reads this, Frame(), current
    {
      State(if current == null then None else Some(current.Value()), recorder.tokens, finished)
    }

    /** changeToNextParser, as the protocol chooses. */
    method ChangeToNextParser() returns (ok: bool)
      requires Wired() && ValidProtocol(protocol) && current != null
      modifies this`current
      ensures Wired() && fresh(Frame() - old(Frame()))
      ensures match protocol.next(recorder.tokens)
              case Failed => !ok && current == old(current)
              case Ended => ok && current == null
              case To(kind) => ok && current != null && current.Value() == Fresh(kind)
    {
      match protocol.next(recorder.tokens)
      case Failed => ok := false;
      case Ended => current, ok := null, true;
      case To(kind) =>
        current := new SubParser(recorder, kind);
        ok := true;
    }

    /** One call of the current sub-parser, as parseData makes it. */
    method FeedCurrent(data: seq<byte>) returns (written: Option<nat>)
      requires Wired() && current != null
      modifies Frame()
      ensures Wired()
      ensures var s := old(Value());
              match Feed(protocol, s.tokens, s.sub.value, data)
              case Refused(cleared) =>
                written.None? && Value() == s.(sub := Some(AfterRefusal(s.sub.value, cleared, data)))
              case Fed(n, buf, chunks, token, status) =>
                && written == Some(n) && current.parseStatus == status
                && Value() == Record(s, s.sub.value, Fed(n, buf, chunks, token, status), data)
    {
      hide Feed, Flat, ValidKind;
      EmptyIsTiled();
      current.parseStatus := GetMoreData;
      written := current.WriteIntoSubParser(data);
    }

    /** What the status of the last call asks for; `stop` when parseData returns here. */
    method ObeyStatus(consumed: nat) returns (written: Option<nat>, stop: bool)
      requires Wired() && ValidProtocol(protocol) && ValidState(Value()) && current != null
      modifies this`current, this`finished
      ensures Wired() && fresh(Frame() - old(Frame()))
      ensures Obey(protocol, old(Value()), old(current.parseStatus), consumed)
              == if stop then Stop(written, Value()) else Go(Value(), consumed)
      ensures !stop ==> written == Some(consumed)
    {
      hide ValidSub, Flat, ValidKind;
      match current.parseStatus {
        case Error =>
          return None, true;
        case GotoNextSubParser =>
          var ok := ChangeToNextParser();
          if !ok {
            return None, true;
          }
          finished := finished || current == null;
          return Some(consumed), current == null;
        case GetMoreData =>
          return Some(consumed), false;
      }
    }

    /** One pass through parseData. */
    method ParseOnce(data: seq<byte>) returns (written: Option<nat>, stop: bool)
      requires Wired() && ValidProtocol(protocol) && ValidState(Value()) && current != null
      modifies this`current, this`finished, Frame()
      ensures Wired() && fresh(Frame() - old(Frame()))
      ensures OnePass(protocol, old(Value()), data)
              == if stop then Stop(written, Value()) else Go(Value(), written.GetOr(0))
      ensures !stop ==> written.Some?
    {
      ghost var s := Value();
      FeedConsumes(protocol, s.tokens, s.sub.value, data);
      hide Feed, ValidSub, Flat, ValidKind, Obey;
      written := FeedCurrent(data);
      if written.None? {
        return None, true;
      }
      written, stop := ObeyStatus(written.value);
    }

    method ParseData(data: seq<byte>, ttl: nat) returns (r: Option<nat>, ghost calls: nat)
      requires Wired() && ValidProtocol(protocol) && ValidState(Value())
      modifies this`current, this`finished, Frame()
      ensures Wired() && fresh(Frame() - old(Frame()))
      ensures Outcome(r, Value(), calls) == Drive(protocol, old(Value()), data, ttl)
      decreases if ttl > protocol.maxTTL then 0 else protocol.maxTTL + 1 - ttl
    {
      hide OnePass, ValidSub;
      if ttl > protocol.maxTTL || current == null {
        return None, 0;
      }
      ghost var s := Value();
      var written, stop := ParseOnce(data);
      r, calls := written, 1;
      if !stop && written.value != |data| {
        assert OnePass(protocol, s, data) == Go(Value(), written.value);
        var x, more := ParseData(data[written.value..], ttl + 1);
        r, calls := if x.Some? then Some(x.value + written.value) else None, more + 1;
      }
    }

    /** Parser::write of a non-empty buffer: a limited number of calls, nothing skipped, nothing consumed twice. */
    method Write(data: seq<byte>) returns (r: Option<nat>, ghost calls: nat)
      requires Wired() && ValidProtocol(protocol) && ValidState(Value())
      modifies this`current, this`finished, Frame()
      ensures Wired() && ValidState(Value()) && fresh(Frame() - old(Frame()))
      ensures calls <= protocol.maxTTL + 1
      ensures Outcome(r, Value(), calls) == Drive(protocol, old(Value()), data, 0)
      ensures r.Some? && r.value != |data| ==> r.value < |data| && finished && current == null
      ensures r.Some? && data != [] && old(current != null && !current.streamEnded) ==>
                Matches(Tokenize(protocol, old(Value()).sub.value.kind, old(recorder.tokens),
                                 old(Value()).sub.value.buf + data),
                        Value(), old(finished), data, r.value)
    {
      ghost var s := Value();
      if data != [] && current != null && !current.streamEnded && Drive(protocol, s, data, 0).result.Some? {
        DriveIsTokenize(protocol, s, data, 0);
      }
      r, calls := ParseData(data, 0);
    }
  }
}
