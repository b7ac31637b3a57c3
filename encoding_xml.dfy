/**
 * encoding/xml.go: XMLCodec, both a Decoder and an Encoder. Its Decode reads
 * the body only for POST, PUT and PATCH requests whose Content-Type is one of
 * the two XML media types; its Encode always serializes. The XML serializer
 * is library code and enters as a parameter.
 */
module EncodingXml {
  import opened Wrappers
  import opened Text
  import opened Reflection
  import opened Http
  import opened Mime
  import opened Parcels

  /** The XML codec as an encoder: registered under both XML media types, labelling responses application/xml. */
  const XMLEncoder := Encoder(1, [MimeXML, MimeXML2], MimeXML)

  /** XML(): the codec, implementing both interfaces. */
  const XML := Codec(Some(Decoder(1)), Some(XMLEncoder))

  /** XML deserialization of a request body into the candidate (library code): new values and error. */
  type Deserializer = (Request, seq<Value>) -> Decoded

  /**
   * XMLCodec.Decode: a method without a body, or a Content-Type that is not
   * XML, leaves the candidate alone and returns nil; a Content-Type that does
   * not parse returns the parse error; otherwise the result is exactly the
   * deserializer's.
   */
  function Decode(r: Request, vals: seq<Value>, parse: MediaTypeParser, deserialize: Deserializer): (d: Decoded)
    ensures !r.HasBodyMethod() ==> d == Decoded(vals, None)
    ensures r.HasBodyMethod() && parse(r.HeaderGet("Content-Type")).Failure? ==>
              d == Decoded(vals, Some(parse(r.HeaderGet("Content-Type")).error))
  {
    if !r.HasBodyMethod() then Decoded(vals, None)
    else
      match parse(r.HeaderGet("Content-Type"))
      case Failure(e) => Decoded(vals, Some(e))
      case Success(mt) =>
        if mt != MimeXML && mt != MimeXML2 then Decoded(vals, None)
        else deserialize(r, vals)
  }

  /**
   * The body is read exactly for a POST, PUT or PATCH whose Content-Type parses
   * to application/xml or text/xml; in every other case the candidate keeps
   * its values, and the result is nil unless the Content-Type did not parse.
   */
  lemma DecodeReadsBodyIff(r: Request, vals: seq<Value>, parse: MediaTypeParser, deserialize: Deserializer)
    ensures var ct := parse(r.HeaderGet("Content-Type"));
            var readsBody := r.HasBodyMethod() && ct.Success? && ct.value in XMLEncoder.encodes;
            && (readsBody ==> Decode(r, vals, parse, deserialize) == deserialize(r, vals))
            && (!readsBody ==> Decode(r, vals, parse, deserialize).values == vals)
            && (!readsBody && !(r.HasBodyMethod() && ct.Failure?) ==> Decode(r, vals, parse, deserialize).err == None)
  {
  }

  /**
   * Registering the codec binds both XML media types to it and leaves every
   * other media type as it was.
   */
  lemma RegisteredUnderBoth(f: map<string, Encoder>)
    ensures var m := Bind(f, XMLEncoder.encodes, XMLEncoder);
            && MimeXML in m && m[MimeXML] == XMLEncoder
            && MimeXML2 in m && m[MimeXML2] == XMLEncoder
            && forall k :: k != MimeXML && k != MimeXML2 ==> (k in m <==> k in f) && (k in f ==> m[k] == f[k])
  {
  }

  /**
   * A request that accepts only text/xml, once the codec is registered, is
   * answered by it, and the response is labelled application/xml: with the
   * candidates GetEncoder uses, and equally with the corrected ones.
   */
  lemma TextXmlLabelledApplicationXml(r: Request, parse: MediaTypeParser, f: map<string, Encoder>, default: Option<Encoder>)
    requires r.HeaderGet("Accept") == MimeXML2
    ensures var e := Negotiate(Bind(f, XMLEncoder.encodes, XMLEncoder), default, CandidatesAsWritten(r, parse));
            e == Some(XMLEncoder) && e.value.contentType == "application/xml"
    ensures var e := Negotiate(Bind(f, XMLEncoder.encodes, XMLEncoder), default, Candidates(r, parse));
            e == Some(XMLEncoder) && e.value.contentType == "application/xml"
  {
    AcceptSingle(MimeXML2);
  }

  /** A header with one media range and nothing else parses to that range. */
  lemma AcceptSingle(accept: string)
    requires accept != [] && ',' !in accept && ';' !in accept
    requires !IsSpace(accept[0]) && !IsSpace(accept[|accept| - 1])
    ensures AcceptList(accept) == [accept]
  {
    assert IndexOf(accept, ',') == -1;
    assert Split(accept, ',') == [accept];
    assert IndexOf(accept, ';') == -1;
    TrimSpaceFixes(accept);
  }
}
