/**
 * The parts of net/http and mime the core touches: a request's method,
 * headers and parsed query string; the response writer, reduced to the
 * header and status writes it receives, in order; and mime.ParseMediaType,
 * which is library code and enters as a parameter.
 */
module Http {
  import opened Wrappers
  import opened Errors

  /**
   * An incoming request: its method, its headers (under canonical keys, first
   * value only) and its query string as url.Values.
   */
  datatype Request = Request(verb: string, header: map<string, string>, query: map<string, seq<string>>)
  {
    /** Header.Get: the first value under `key`, or "" when there is none. */
    function HeaderGet(key: string): (v: string)
      ensures key in header ==> v == header[key]
      ensures key !in header ==> v == ""
    {
      if key in header then header[key] else ""
    }

    /** The methods that carry a body the codecs read. */
    predicate HasBodyMethod()
    {
      verb == "POST" || verb == "PUT" || verb == "PATCH"
    }
  }

  /** mime.ParseMediaType, keeping only the media type or the parse error. */
  type MediaTypeParser = string -> Result<string, Error>

  /** What a handler does to a response before its body: set a header, write the status. */
  datatype ResponseEvent = SetHeader(key: string, value: string) | WriteHeader(code: int)

  /** An http.ResponseWriter, as the sequence of header and status writes it has received. */
  class ResponseWriter {
    var log: seq<ResponseEvent>

    constructor ()
      ensures log == []
    {
      log := [];
    }

    /** Header().Set(key, value). */
    method SetHeader(key: string, value: string)
      modifies this
      ensures log == old(log) + [ResponseEvent.SetHeader(key, value)]
    {
      log := log + [ResponseEvent.SetHeader(key, value)];
    }

    /** WriteHeader(code). */
    method WriteHeader(code: int)
      modifies this
      ensures log == old(log) + [ResponseEvent.WriteHeader(code)]
    {
      log := log + [ResponseEvent.WriteHeader(code)];
    }
  }
}
