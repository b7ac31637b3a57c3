/**
 * parcel.go: the Factory that holds the registered encoders (by media type),
 * the decoder chain and the default encoder, and the Parcel bound to one
 * request and response, which decodes through the chain and encodes with the
 * encoder chosen from the Accept header.
 */
module Parcels {
  import opened Wrappers
  import opened Errors
  import opened Text
  import opened Reflection
  import opened Http

  /**
   * An Encoder implementation: its identity, the media types Encodes() lists
   * and the Content-Type it labels its responses with.
   */
  datatype Encoder = Encoder(id: nat, encodes: seq<string>, contentType: string)

  /** A Decoder implementation, by identity; what it does is a parameter (DecodeFn). */
  datatype Decoder = Decoder(id: nat)

  /** A value handed to Factory.Use: the Decoder and the Encoder it implements, if it does. */
  datatype Codec = Codec(asDecoder: Option<Decoder>, asEncoder: Option<Encoder>)

  /** What a decoder's Decode does to a candidate for a request: its new field values and its error. */
  type DecodeFn = (Decoder, Request, seq<Value>) -> Decoded

  /** What an encoder's Encode returns for a candidate (the body it writes is not modelled). */
  type EncodeFn = (Encoder, seq<Value>) -> Option<Error>

  // ---------------------------------------------------------------------
  // Registration

  /**
   * The encoder map after binding every key in `keys` to `e`: each of those
   * keys maps to `e`, and every other key keeps its binding (or absence).
   */
  function Bind(m: map<string, Encoder>, keys: seq<string>, e: Encoder): (r: map<string, Encoder>)
    ensures forall k :: k in keys ==> k in r && r[k] == e
    ensures forall k :: k !in keys ==> (k in r <==> k in m) && (k in m ==> r[k] == m[k])
  {
    if keys == [] then m else Bind(m, keys[..|keys| - 1], e)[keys[|keys| - 1] := e]
  }

  // ---------------------------------------------------------------------
  // The decoder chain

  /**
   * Decoders run in order on the same candidate; the first error stops the
   * chain with what that decoder left behind.
   */
  function Chain(ds: seq<Decoder>, run: DecodeFn, r: Request, vals: seq<Value>): (out: Decoded)
    ensures out.err.Some? ==> exists d, vs :: d in ds && out == run(d, r, vs)
  {
    if ds == [] then Decoded(vals, None)
    else
      var d := run(ds[0], r, vals);
      if d.err.Some? then d else Chain(ds[1..], run, r, d.values)
  }

  /**
   * Running two chains one after the other is running their concatenation:
   * the second is not consulted when the first fails, and otherwise starts
   * from what the first left.
   */
  lemma {:induction false} ChainSplit(ds1: seq<Decoder>, ds2: seq<Decoder>, run: DecodeFn, r: Request, vals: seq<Value>)
    ensures Chain(ds1 + ds2, run, r, vals) ==
              var c1 := Chain(ds1, run, r, vals);
              if c1.err.Some? then c1 else Chain(ds2, run, r, c1.values)
  {
    if ds1 == [] {
      assert ds1 + ds2 == ds2;
    } else {
      assert (ds1 + ds2)[1..] == ds1[1..] + ds2;
      var d := run(ds1[0], r, vals);
      if d.err.None? {
        ChainSplit(ds1[1..], ds2, run, r, d.values);
      }
    }
  }

  /**
   * The chain succeeds exactly when every decoder succeeds on what its
   * predecessors left.
   */
  lemma {:induction false} ChainSucceeds(ds: seq<Decoder>, run: DecodeFn, r: Request, vals: seq<Value>)
    ensures Chain(ds, run, r, vals).err.None? <==>
              forall k :: 0 <= k < |ds| ==> run(ds[k], r, Chain(ds[..k], run, r, vals).values).err.None?
  {
    if ds != [] {
      var d := run(ds[0], r, vals);
      assert Chain(ds[..0], run, r, vals) == Decoded(vals, None);
      if d.err.None? {
        ChainSucceeds(ds[1..], run, r, d.values);
        forall k | 1 <= k < |ds|
          ensures Chain(ds[..k], run, r, vals) == Chain(ds[1..][..k - 1], run, r, d.values)
          ensures ds[k] == ds[1..][k - 1]
        {
          assert ds[..k][1..] == ds[1..][..k - 1];
        }
      }
    }
  }

  /**
   * When decoder k is the first to fail, the chain's result is what k
   * returned, and no later decoder is run.
   */
  lemma ChainFirstError(ds: seq<Decoder>, run: DecodeFn, r: Request, vals: seq<Value>, k: nat, later: seq<Decoder>)
    requires k < |ds|
    requires Chain(ds[..k], run, r, vals).err.None?
    requires run(ds[k], r, Chain(ds[..k], run, r, vals).values).err.Some?
    ensures Chain(ds, run, r, vals) == run(ds[k], r, Chain(ds[..k], run, r, vals).values)
    ensures Chain(ds[..k + 1] + later, run, r, vals) == Chain(ds, run, r, vals)
  {
    var pre := Chain(ds[..k], run, r, vals);
    ChainSplit(ds[..k], [ds[k]], run, r, vals);
    assert ds[..k] + [ds[k]] == ds[..k + 1];
    assert [ds[k]][1..] == [];
    assert Chain([ds[k]], run, r, pre.values) == run(ds[k], r, pre.values);
    ChainSplit(ds[..k + 1], later, run, r, vals);
    ChainSplit(ds[..k + 1], ds[k + 1..], run, r, vals);
    assert ds[..k + 1] + ds[k + 1..] == ds;
  }

  // ---------------------------------------------------------------------
  // Content negotiation

  /** One Accept entry: the part before its first ';', trimmed of white space. */
  function MediaRange(part: string): (m: string)
    ensures ';' !in m
    ensures forall c :: c in m ==> c in part
    ensures m == [] || (!IsSpace(m[0]) && !IsSpace(m[|m| - 1]))
  {
    var b := Before(part, ';');
    TrimSpaceWithin(b);
    TrimSpace(b)
  }

  /**
   * What parseAccept returns: one media range per comma-separated segment, in
   * order; never empty, since even "" is one segment.
   */
  function AcceptList(accept: string): (l: seq<string>)
    ensures |l| >= 1
    ensures forall i :: 0 <= i < |l| ==> ';' !in l[i]
  {
    var parts := Split(accept, ',');
    seq(|parts|, i requires 0 <= i < |parts| => MediaRange(parts[i]))
  }

  /**
   * The entries of the Accept list are the segments between commas, in order
   * and one per segment (joining the segments gives the header back), each
   * cut at its first ';' and trimmed; there is always at least one, and there
   * is one more than there are commas.
   */
  lemma AcceptListMeaning(accept: string)
    ensures var l, segs := AcceptList(accept), Split(accept, ',');
            && |l| == |segs| == multiset(accept)[','] + 1
            && Join(segs, ',') == accept
            && (forall i :: 0 <= i < |l| ==> l[i] == MediaRange(segs[i]) && ',' !in l[i])
  {
    SplitCount(accept, ',');
    JoinSplit(accept, ',');
  }

  /**
   * Media-type parameters, q weights included, play no part: an entry is its
   * media range alone, so preference is list order.
   */
  lemma ParametersIgnored(range: string, params: string)
    requires ';' !in range
    ensures MediaRange(range + [';'] + params) == TrimSpace(range)
  {
    var s := range + [';'] + params;
    assert s[..|range|] == range && s[|range|] == ';';
    assert IndexOf(s, ';') == |range|;
  }

  /**
   * The encoder for the first candidate registered in `encoders`, else the
   * default: never anything but the default or a registered encoder.
   */
  function Negotiate(encoders: map<string, Encoder>, default: Option<Encoder>, candidates: seq<string>): (e: Option<Encoder>)
    ensures e == default || (e.Some? && e.value in encoders.Values)
  {
    if candidates == [] then default
    else if candidates[0] in encoders then Some(encoders[candidates[0]])
    else Negotiate(encoders, default, candidates[1..])
  }

  /**
   * Negotiation picks the encoder registered under the earliest candidate that
   * has one, by exact key; when no candidate is registered it falls back to
   * the default encoder, which may be nil.
   */
  lemma {:induction false} NegotiateMeaning(encoders: map<string, Encoder>, default: Option<Encoder>, candidates: seq<string>)
    ensures (forall i :: 0 <= i < |candidates| ==> candidates[i] !in encoders) ==>
              Negotiate(encoders, default, candidates) == default
    ensures forall k :: 0 <= k < |candidates| && candidates[k] in encoders &&
                        (forall i :: 0 <= i < k ==> candidates[i] !in encoders) ==>
              Negotiate(encoders, default, candidates) == Some(encoders[candidates[k]])
  {
    if candidates != [] {
      NegotiateMeaning(encoders, default, candidates[1..]);
      assert forall i :: 1 <= i < |candidates| ==> candidates[i] == candidates[1..][i - 1];
    }
  }

  /** No entry of the Accept list names a media type. */
  predicate NoMediaRange(accepts: seq<string>)
  {
    forall i :: 0 <= i < |accepts| ==> accepts[i] == ""
  }

  /**
   * The negotiation candidates as the source computes them: the Accept list,
   * extended by the request's own media type only when that list is empty.
   */
  function CandidatesAsWritten(r: Request, parse: MediaTypeParser): (c: seq<string>)
    ensures var accepts, ct := AcceptList(r.HeaderGet("Accept")), parse(r.HeaderGet("Content-Type"));
            && accepts <= c
            && (c != accepts <==> |accepts| == 0 && r.HasBodyMethod() && ct.Success?)
            && (c != accepts ==> ct.Success? && c == accepts + [ct.value])
  {
    var accepts := AcceptList(r.HeaderGet("Accept"));
    if |accepts| == 0 && r.HasBodyMethod() then
      match parse(r.HeaderGet("Content-Type"))
      case Success(mt) => accepts + [mt]
      case Failure(_) => accepts
    else accepts
  }

  /**
   * The negotiation candidates with the Content-Type fallback taken when the
   * Accept list names no media type (no Accept header, or only blanks).
   */
  function Candidates(r: Request, parse: MediaTypeParser): (c: seq<string>)
    ensures var accepts, ct := AcceptList(r.HeaderGet("Accept")), parse(r.HeaderGet("Content-Type"));
            && accepts <= c
            && (c != accepts <==> NoMediaRange(accepts) && r.HasBodyMethod() && ct.Success?)
            && (c != accepts ==> ct.Success? && c == accepts + [ct.value])
  {
    var accepts := AcceptList(r.HeaderGet("Accept"));
    if NoMediaRange(accepts) && r.HasBodyMethod() then
      match parse(r.HeaderGet("Content-Type"))
      case Success(mt) => accepts + [mt]
      case Failure(_) => accepts
    else accepts
  }

  /**
   * As written, the fallback is dead: strings.Split never returns an empty
   * slice, so the Accept list is never empty and the request's Content-Type
   * is never consulted, whatever the method and headers.
   */
  lemma FallbackUnreachable(r: Request, parse: MediaTypeParser)
    ensures |AcceptList(r.HeaderGet("Accept"))| >= 1
    ensures CandidatesAsWritten(r, parse) == AcceptList(r.HeaderGet("Accept"))
  {
  }

  /** A POST of JSON with no Accept header. */
  const JsonPost := Request("POST", map["Content-Type" := "application/json"], map[])

  /**
   * The discrepancy on one input: a POST with Content-Type application/json,
   * no Accept header and a JSON encoder registered gets the default encoder
   * (here none, so Encode reports ResponseNotWrittenError) as written, and the
   * JSON encoder with the fallback taken.
   */
  lemma FallbackCounterexample(json: Encoder, parse: MediaTypeParser)
    requires parse("application/json") == Success("application/json")
    ensures CandidatesAsWritten(JsonPost, parse) == [""]
    ensures Negotiate(map["application/json" := json], None, CandidatesAsWritten(JsonPost, parse)) == None
    ensures Candidates(JsonPost, parse) == ["", "application/json"]
    ensures Negotiate(map["application/json" := json], None, Candidates(JsonPost, parse)) == Some(json)
  {
    assert Split("", ',') == [""];
    assert MediaRange("") == "";
    assert AcceptList("") == [""];
  }

  /** A request whose Accept header names a media type negotiates exactly as written. */
  lemma CorrectedAgrees(r: Request, parse: MediaTypeParser)
    requires !NoMediaRange(AcceptList(r.HeaderGet("Accept")))
    ensures Candidates(r, parse) == CandidatesAsWritten(r, parse)
  {
  }

  /**
   * With the fallback taken: a request with a body, no media range in its
   * Accept header and a Content-Type that parses is answered by the encoder
   * registered under that media type (unless one is registered under the
   * empty key), else by the default.
   */
  lemma CorrectedFallback(r: Request, parse: MediaTypeParser, encoders: map<string, Encoder>, default: Option<Encoder>)
    requires NoMediaRange(AcceptList(r.HeaderGet("Accept"))) && r.HasBodyMethod()
    requires parse(r.HeaderGet("Content-Type")).Success? && "" !in encoders
    ensures var mt := parse(r.HeaderGet("Content-Type")).value;
            Negotiate(encoders, default, Candidates(r, parse)) ==
              (if mt in encoders then Some(encoders[mt]) else default)
  {
    var accepts := AcceptList(r.HeaderGet("Accept"));
    var mt := parse(r.HeaderGet("Content-Type")).value;
    var cands := accepts + [mt];
    assert Candidates(r, parse) == cands;
    assert forall i :: 0 <= i < |accepts| ==> cands[i] !in encoders;
    NegotiateMeaning(encoders, default, cands);
    assert cands[|accepts|] == mt;
  }

  // ---------------------------------------------------------------------
  // Factory and Parcel

  class Factory {
    var defaultEncoder: Option<Encoder>
    var encoders: map<string, Encoder>
    var decoders: seq<Decoder>

    /** NewFactory: no encoders, no decoders, no default. */
    constructor ()
      ensures encoders == map[] && decoders == [] && defaultEncoder == None
    {
      defaultEncoder := None;
      encoders := map[];
      decoders := [];
    }

    method UseDefaultEncoder(encoder: Option<Encoder>)
      modifies this
      ensures defaultEncoder == encoder
      ensures encoders == old(encoders) && decoders == old(decoders)
    {
      defaultEncoder := encoder;
    }

    /** Binds every media type the encoder lists to it, in the order listed. */
    method UseEncoder(encoder: Encoder)
      modifies this
      ensures encoders == Bind(old(encoders), encoder.encodes, encoder)
      ensures defaultEncoder == old(defaultEncoder) && decoders == old(decoders)
    {
      for i := 0 to |encoder.encodes|
        invariant encoders == Bind(old(encoders), encoder.encodes[..i], encoder)
        invariant defaultEncoder == old(defaultEncoder) && decoders == old(decoders)
      {
        assert encoder.encodes[..i + 1][..i] == encoder.encodes[..i];
        encoders := encoders[encoder.encodes[i] := encoder];
      }
      assert encoder.encodes[..|encoder.encodes|] == encoder.encodes;
    }

    /** Appends the decoder to the end of the chain. */
    method UseDecoder(decoder: Decoder)
      modifies this
      ensures decoders == old(decoders) + [decoder]
      ensures defaultEncoder == old(defaultEncoder) && encoders == old(encoders)
    {
      decoders := decoders + [decoder];
    }

    /** Registers the value as a decoder if it is one, then as an encoder if it is one. */
    method Use(i: Codec)
      modifies this
      ensures decoders == old(decoders) + (if i.asDecoder.Some? then [i.asDecoder.value] else [])
      ensures encoders == if i.asEncoder.Some? then Bind(old(encoders), i.asEncoder.value.encodes, i.asEncoder.value)
                          else old(encoders)
      ensures defaultEncoder == old(defaultEncoder)
    {
      if i.asDecoder.Some? {
        UseDecoder(i.asDecoder.value);
      }
      if i.asEncoder.Some? {
        UseEncoder(i.asEncoder.value);
      }
    }

    /** A parcel for one request and its response, sharing this factory. */
    method Parcel(rw: ResponseWriter, r: Request) returns (p: Parcel)
      ensures fresh(p) && p.rw == rw && p.r == r && p.factory == this
    {
      p := new Parcel(rw, r, this);
    }

    /** NewCodec, another name for Parcel. */
    method NewCodec(rw: ResponseWriter, r: Request) returns (p: Parcel)
      ensures fresh(p) && p.rw == rw && p.r == r && p.factory == this
    {
      p := Parcel(rw, r);
    }
  }

  class Parcel {
    const rw: ResponseWriter
    const r: Request
    const factory: Factory

    constructor (rw: ResponseWriter, r: Request, factory: Factory)
      ensures this.rw == rw && this.r == r && this.factory == factory
    {
      this.rw := rw;
      this.r := r;
      this.factory := factory;
    }

    /**
     * Runs the registered decoders in order on the candidate, stopping at the
     * first error, which it returns.
     */
    method Decode(c: array<Value>, run: DecodeFn) returns (err: Option<Error>)
      requires forall d, vals :: |run(d, r, vals).values| == |vals|
      modifies c
      ensures Decoded(c[..], err) == Chain(factory.decoders, run, r, old(c[..]))
    {
      var ds := factory.decoders;
      for i := 0 to |ds|
        invariant Chain(ds[i..], run, r, c[..]) == Chain(ds, run, r, old(c[..]))
      {
        var d := run(ds[i], r, c[..]);
        forall k | 0 <= k < c.Length {
          c[k] := d.values[k];
        }
        assert c[..] == d.values;
        assert ds[i..][1..] == ds[i + 1..];
        if d.err.Some? {
          return d.err;
        }
      }
      return None;
    }

    /**
     * Picks the encoder: the Accept list (with the request's media type added
     * when that list is empty and the request has a body), scanned in order
     * for a registered media type, else the default. Since the Accept list is
     * never empty, this is negotiation over the Accept list alone.
     */
    method GetEncoder(parse: MediaTypeParser) returns (e: Option<Encoder>)
      ensures e == Negotiate(factory.encoders, factory.defaultEncoder, CandidatesAsWritten(r, parse))
      ensures e == Negotiate(factory.encoders, factory.defaultEncoder, AcceptList(r.HeaderGet("Accept")))
    {
      var accepts := ParseAccept(r.HeaderGet("Accept"));
      if |accepts| == 0 {
        if r.HasBodyMethod() {
          match parse(r.HeaderGet("Content-Type"))
          case Success(mt) => accepts := accepts + [mt];
          case Failure(_) =>
        }
      }
      FallbackUnreachable(r, parse);
      e := Lookup(factory.encoders, factory.defaultEncoder, accepts);
    }

    /**
     * GetEncoder with the fallback it was evidently meant to have: the
     * request's media type is added when the Accept list names no media type.
     */
    method GetEncoderCorrected(parse: MediaTypeParser) returns (e: Option<Encoder>)
      ensures e == Negotiate(factory.encoders, factory.defaultEncoder, Candidates(r, parse))
    {
      var accepts := ParseAccept(r.HeaderGet("Accept"));
      if forall i | 0 <= i < |accepts| :: accepts[i] == "" {
        if r.HasBodyMethod() {
          var mt := parse(r.HeaderGet("Content-Type"));
          if mt.Success? {
            accepts := accepts + [mt.value];
          }
        }
      }
      assert accepts == Candidates(r, parse);
      e := Lookup(factory.encoders, factory.defaultEncoder, accepts);
    }

    /**
     * Encodes the candidate with the negotiated encoder: sets Content-Type to
     * its content type, writes the status, and returns the encoder's error;
     * with no encoder, writes nothing and returns ResponseNotWrittenError.
     */
    method Encode(code: int, c: seq<Value>, parse: MediaTypeParser, encode: EncodeFn) returns (err: Option<Error>)
      modifies rw
      ensures var e := Negotiate(factory.encoders, factory.defaultEncoder, CandidatesAsWritten(r, parse));
              && (e.None? ==> err == Some(ResponseNotWrittenError) && rw.log == old(rw.log))
              && (e.Some? ==> err == encode(e.value, c) &&
                              rw.log == old(rw.log) + [SetHeader("Content-Type", e.value.contentType), WriteHeader(code)])
    {
      var encoder := GetEncoder(parse);
      if encoder.Some? {
        rw.SetHeader("Content-Type", encoder.value.contentType);
        rw.WriteHeader(code);
        err := encode(encoder.value, c);
      } else {
        err := Some(ResponseNotWrittenError);
      }
    }
  }

  /**
   * The scan at the end of GetEncoder: the encoder registered under the first
   * candidate that has one, else the default.
   */
  method Lookup(encoders: map<string, Encoder>, default: Option<Encoder>, candidates: seq<string>) returns (e: Option<Encoder>)
    ensures e == Negotiate(encoders, default, candidates)
  {
    for i := 0 to |candidates|
      invariant Negotiate(encoders, default, candidates[i..]) == Negotiate(encoders, default, candidates)
    {
      assert candidates[i..][1..] == candidates[i + 1..];
      if candidates[i] in encoders {
        return Some(encoders[candidates[i]]);
      }
    }
    assert candidates[|candidates|..] == [];
    return default;
  }

  /** parseAccept: splits the header at commas and rewrites each part to its media range. */
  method ParseAccept(accept: string) returns (parts: seq<string>)
    ensures parts == AcceptList(accept)
  {
    parts := Split(accept, ',');
    ghost var segs := parts;
    for i := 0 to |parts|
      invariant |parts| == |segs|
      invariant forall j :: 0 <= j < i ==> parts[j] == MediaRange(segs[j])
      invariant forall j :: i <= j < |parts| ==> parts[j] == segs[j]
    {
      var part := parts[i];
      assert part == segs[i];
      MediaRangeSteps(part);
      var index := IndexOf(part, ';');
      if index >= 0 {
        part := part[0..index];
      }
      part := TrimSpace(part);
      assert part == MediaRange(segs[i]);
      parts := parts[i := part];
    }
    AcceptListElements(accept, segs, parts);
  }

  /** MediaRange spelled out as parseAccept computes it. */
  lemma MediaRangeSteps(part: string)
    ensures var index := IndexOf(part, ';');
            MediaRange(part) == TrimSpace(if index >= 0 then part[0..index] else part)
  {
  }

  /** A list that has the media range of each segment, in order, is the Accept list. */
  lemma AcceptListElements(accept: string, segs: seq<string>, parts: seq<string>)
    requires segs == Split(accept, ',') && |parts| == |segs|
    requires forall j :: 0 <= j < |parts| ==> parts[j] == MediaRange(segs[j])
    ensures parts == AcceptList(accept)
  {
  }
}
