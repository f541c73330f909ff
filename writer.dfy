/** The buffered writer the whole document is written through. */
module Output {
  import opened Utf8

  /** bufio.Writer over the output file: bytes is everything written so far.
      Flushing, and the write errors the program never looks at, are not
      part of the model. */
  class Writer {
    var bytes: seq<byte>

    constructor ()
      ensures bytes == []
    {
      bytes := [];
    }

    /** WriteString appends the UTF-8 bytes of s; well-formed output stays
        well-formed. */
    method WriteString(s: string)
      modifies this
      ensures bytes == old(bytes) + Encode(s)
      ensures Valid(old(bytes)) ==> Valid(bytes)
    {
      EncodeValid(s);
      if Valid(bytes) {
        ValidConcat(bytes, Encode(s));
      }
      bytes := bytes + Encode(s);
    }

    /** Write appends raw bytes; well-formed output stays well-formed when
        the bytes are. */
    method Write(b: seq<byte>)
      modifies this
      ensures bytes == old(bytes) + b
      ensures Valid(old(bytes)) && Valid(b) ==> Valid(bytes)
    {
      if Valid(bytes) && Valid(b) {
        ValidConcat(bytes, b);
      }
      bytes := bytes + b;
    }
  }
}
