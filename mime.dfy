/** The media types the encoding package names (encoding/encoding.go). */
module Mime {
  const MimeJSON := "application/json"
  const MimeXML := "application/xml"
  const MimeXML2 := "text/xml"
}
