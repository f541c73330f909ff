/** The content pass for one file: the gates processFile applies, the
    encoding detection, and the fenced Markdown block it writes. */
module Content {
  import opened Wrappers
  import opened Text
  import opened Utf8
  import opened FileSystem
  import opened Classify
  import opened Output

  /** isBinary looks only at this many leading bytes. */
  const SniffLength: nat := 512

  const NewLine: byte := 10

  function Min(a: nat, b: nat): nat {
    if a < b then a else b
  }

  /** isBinary: a NUL byte among the first 512 bytes. */
  predicate IsBinary(content: seq<byte>) {
    0 in content[..Min(SniffLength, |content|)]
  }

  /** Bytes past the first 512 never change the verdict. */
  lemma SniffWindow(a: seq<byte>, b: seq<byte>)
    requires |a| >= SniffLength
    ensures IsBinary(a + b) == IsBinary(a)
  {
    assert (a + b)[..SniffLength] == a[..SniffLength];
  }

  /** A binary verdict always rests on a NUL byte of the content. */
  lemma BinaryHasNul(content: seq<byte>)
    requires IsBinary(content)
    ensures 0 in content
  {
    var w := content[..Min(SniffLength, |content|)];
    var i :| 0 <= i < |w| && w[i] == 0;
    assert content[i] == 0;
  }

  /** Text without U+0000 is never taken for binary, whatever its length
      and whatever characters it uses. */
  lemma TextIsNotBinary(s: string)
    requires '\U{0000}' !in s
    ensures !IsBinary(Encode(s))
  {
    ZeroInEncode(s);
    var e := Encode(s);
    if IsBinary(e) {
      BinaryHasNul(e);
    }
  }

  /** A U+0000 among the first 128 characters makes the text binary: those
      characters occupy at most 512 bytes. */
  lemma NulNearStartIsBinary(s: string, k: nat)
    requires k < SniffLength / 4 && k < |s| && s[k] == '\U{0000}'
    ensures IsBinary(Encode(s))
  {
    var head := s[..k + 1];
    assert s == head + s[k + 1..];
    EncodeConcat(head, s[k + 1..]);
    EncodeLength(head);
    assert head[k] == '\U{0000}';
    ZeroInEncode(head);
    var eh := Encode(head);
    var i :| 0 <= i < |eh| && eh[i] == 0;
    var e := Encode(s);
    assert e[i] == 0;
    assert e[..Min(SniffLength, |e|)][i] == 0;
  }

  /** The encodings convertToUTF8 recognises. */
  datatype Encoding = Utf8Text | Gbk

  /** The name the program reports for an encoding. */
  function EncodingName(e: Encoding): (r: string)
    ensures r == "UTF-8" <==> e == Utf8Text
  {
    match e
    case Utf8Text => "UTF-8"
    case Gbk => "GBK/GB18030"
  }

  /** The content as UTF-8 and the encoding it was found in. */
  datatype Converted = Converted(text: seq<byte>, encoding: Encoding)

  /** convertToUTF8: UTF-8 content is kept as it is; otherwise the GBK
      decoding is taken when it succeeds with well-formed output; anything
      else is not recognised. gbk stands for the GBK decoder of the
      golang.org/x/text library. */
  function ConvertToUtf8(content: seq<byte>, gbk: seq<byte> -> Option<seq<byte>>): (r: Option<Converted>)
    ensures r.Some? ==> Valid(r.value.text)
    ensures Valid(content) ==> r == Some(Converted(content, Utf8Text))
    ensures !Valid(content) ==>
              (r.Some? <==> gbk(content).Some? && Valid(gbk(content).value))
    ensures r.Some? && r.value.encoding == Gbk ==>
              !Valid(content) && gbk(content) == Some(r.value.text)
  {
    if Valid(content) then Some(Converted(content, Utf8Text))
    else match gbk(content)
      case Some(decoded) =>
        if Valid(decoded) then Some(Converted(decoded, Gbk)) else None
      case None => None
  }

  /** The info string of the code fence: the lower-cased extension without
      its dot, or "text". */
  function Lang(path: string): string {
    var l := TrimPrefix(LowerExt(path), ".");
    if l == "" then "text" else l
  }

  /** The info string is never empty, holds no '.' or '/', and is either
      "text" or the extension the asset and text lists are keyed by. */
  lemma LangShape(path: string)
    ensures Lang(path) != []
    ensures '.' !in Lang(path) && '/' !in Lang(path)
    ensures Lang(path) == "text" || "." + Lang(path) == LowerExt(path)
  {
    var x := Ext(path);
    var e := LowerExt(path);
    assert e == ToLower(x);
    var l := TrimPrefix(e, ".");
    if e != [] {
      assert e[0] == '.';
      assert HasPrefix(e, ".");
      assert l == e[1..];
      forall k | 0 <= k < |l|
        ensures l[k] != '.' && l[k] != '/'
      {
        assert l[k] == LowerChar(x[k + 1]);
      }
    }
  }

  /** The fenced content: a newline is added when the content does not
      already end with one. */
  function Body(content: seq<byte>): seq<byte> {
    if |content| > 0 && content[|content| - 1] != NewLine then content + Encode("\n")
    else content
  }

  /** The body starts with the content, adds at most one byte, and is empty
      or ends with a newline, so the closing fence starts a line. */
  lemma BodyShape(content: seq<byte>)
    ensures var b := Body(content);
            |content| <= |b| <= |content| + 1 && b[..|content|] == content &&
            (b == [] || b[|b| - 1] == NewLine) &&
            (b == content <==> content == [] || content[|content| - 1] == NewLine)
  {
    assert Encode("\n") == [NewLine];
  }

  /** Adding the newline twice changes nothing. */
  lemma BodyIdempotent(content: seq<byte>)
    ensures Body(Body(content)) == Body(content)
  {
    BodyShape(content);
  }

  /** "## File: <path>" and the opening fence. */
  function Header(path: string, lang: string): seq<byte> {
    Encode("## File: " + path + "\n\n") + Encode("```" + lang + "\n")
  }

  /** The closing fence and the separator rule. */
  function Footer(): seq<byte> {
    Encode("```\n\n") + Encode("---\n\n")
  }

  /** The Markdown block written for one file. */
  function Block(path: string, lang: string, content: seq<byte>): seq<byte> {
    Header(path, lang) + Body(content) + Footer()
  }

  /** A reader of the document: the fenced body of a block, given the path
      and info string it was written with. */
  function Unwrap(block: seq<byte>, path: string, lang: string): (r: Option<seq<byte>>)
    ensures r.Some? ==> |Header(path, lang)| + |r.value| + |Footer()| == |block|
  {
    var h := Header(path, lang);
    var f := Footer();
    if |block| >= |h| + |f| && block[..|h|] == h && block[|block| - |f|..] == f
    then Some(block[|h|..|block| - |f|])
    else None
  }

  /** Unwrapping a written block gives the content back, newline-terminated. */
  lemma UnwrapBlock(path: string, lang: string, content: seq<byte>)
    ensures Unwrap(Block(path, lang, content), path, lang) == Some(Body(content))
  {
    var h := Header(path, lang);
    var b := Body(content);
    var f := Footer();
    var blk := Block(path, lang, content);
    assert blk == h + b + f;
    assert blk[..|h|] == h;
    assert blk[|blk| - |f|..] == f;
    assert blk[|h|..|blk| - |f|] == b;
  }

  /** Text ending in a line feed encodes to bytes ending in one. */
  lemma EncodeEndsWithNewline(s: string)
    requires s != [] && s[|s| - 1] == '\n'
    ensures var e := Encode(s); e != [] && e[|e| - 1] == NewLine
  {
    assert s == s[..|s| - 1] + "\n";
    EncodeConcat(s[..|s| - 1], "\n");
    assert Encode("\n") == [NewLine];
  }

  /** The byte before the closing fence is a newline. */
  lemma FenceStartsLine(path: string, lang: string, content: seq<byte>)
    ensures var blk := Block(path, lang, content);
            |blk| > |Footer()| && blk[|blk| - |Footer()| - 1] == NewLine
  {
    var opening := "```" + lang + "\n";
    EncodeEndsWithNewline(opening);
    var h := Header(path, lang);
    var b := Body(content);
    var f := Footer();
    assert h[|h| - 1] == NewLine;
    BodyShape(content);
    var hb := h + b;
    assert hb[|hb| - 1] == NewLine;
    var blk := Block(path, lang, content);
    assert blk == hb + f;
    assert blk[|blk| - |f| - 1] == hb[|hb| - 1];
  }

  /** A block around well-formed text is well-formed. */
  lemma BlockValid(path: string, lang: string, content: seq<byte>)
    requires Valid(content)
    ensures Valid(Block(path, lang, content))
  {
    EncodeValid("## File: " + path + "\n\n");
    EncodeValid("```" + lang + "\n");
    EncodeValid("\n");
    EncodeValid("```\n\n");
    EncodeValid("---\n\n");
    ValidConcat(Encode("## File: " + path + "\n\n"), Encode("```" + lang + "\n"));
    ValidConcat(Encode("```\n\n"), Encode("---\n\n"));
    ValidConcat(content, Encode("\n"));
    ValidConcat(Header(path, lang), Body(content));
    ValidConcat(Header(path, lang) + Body(content), Footer());
  }

  /** Why a file produced no block. */
  datatype Skip = StatFailed | IsDirectory | TooLarge | ReadFailed | Binary | UnknownEncoding

  /** What processFile does with one path. */
  datatype Outcome = Skipped(reason: Skip) | Emitted(block: seq<byte>, encoding: Encoding)

  /** processFile's decision, gate by gate in the order the program applies
      them: stat, directory, size (strictly above the limit), read, binary
      sniff (waived for the forced-text extensions), encoding. */
  function Serialize(fs: FS, cfg: Config, gbk: seq<byte> -> Option<seq<byte>>, path: string): (r: Outcome)
    ensures r.Emitted? ==> Valid(r.block)
  {
    if path !in fs.stat then Skipped(StatFailed)
    else if fs.stat[path].isDir then Skipped(IsDirectory)
    else if fs.stat[path].size > cfg.maxFileSize then Skipped(TooLarge)
    else if path !in fs.data then Skipped(ReadFailed)
    else
      var content := fs.data[path];
      if LowerExt(path) !in cfg.textExts && IsBinary(content) then Skipped(Binary)
      else match ConvertToUtf8(content, gbk)
        case None => Skipped(UnknownEncoding)
        case Some(c) =>
          BlockValid(path, Lang(path), c.text);
          Emitted(Block(path, Lang(path), c.text), c.encoding)
  }

  /** The gates, both ways: a block is written exactly when the path stats
      as a regular file no larger than the limit, can be read, is forced
      text or not binary, and its encoding is recognised. */
  lemma EmittedIff(fs: FS, cfg: Config, gbk: seq<byte> -> Option<seq<byte>>, path: string)
    ensures Serialize(fs, cfg, gbk, path).Emitted? <==>
              path in fs.stat && !fs.stat[path].isDir &&
              fs.stat[path].size <= cfg.maxFileSize && path in fs.data &&
              (LowerExt(path) in cfg.textExts || !IsBinary(fs.data[path])) &&
              ConvertToUtf8(fs.data[path], gbk).Some?
  {
  }

  /** A readable UTF-8 file within the limit is written byte for byte inside
      its block, under its own path and extension. */
  lemma Utf8Verbatim(fs: FS, cfg: Config, gbk: seq<byte> -> Option<seq<byte>>, path: string)
    requires path in fs.stat && !fs.stat[path].isDir && fs.stat[path].size <= cfg.maxFileSize
    requires path in fs.data && Valid(fs.data[path]) && !IsBinary(fs.data[path])
    ensures Serialize(fs, cfg, gbk, path) == Emitted(Block(path, Lang(path), fs.data[path]), Utf8Text)
  {
  }

  /** A forced-text extension skips the sniff: well-formed UTF-8 with NUL
      bytes is still written. */
  lemma ForcedTextKeepsNul(fs: FS, cfg: Config, gbk: seq<byte> -> Option<seq<byte>>, path: string)
    requires path in fs.stat && !fs.stat[path].isDir && fs.stat[path].size <= cfg.maxFileSize
    requires path in fs.data && Valid(fs.data[path]) && LowerExt(path) in cfg.textExts
    ensures Serialize(fs, cfg, gbk, path).Emitted?
  {
  }

  /** The size limit is inclusive: a file of exactly maxFileSize bytes is
      not skipped for its size, one byte more is. */
  lemma SizeLimitInclusive(fs: FS, cfg: Config, gbk: seq<byte> -> Option<seq<byte>>, path: string)
    requires path in fs.stat && !fs.stat[path].isDir
    ensures Serialize(fs, cfg, gbk, path) == Skipped(TooLarge) <==>
              fs.stat[path].size > cfg.maxFileSize
  {
  }

  /** The bytes processFile adds to the document. */
  function Emission(o: Outcome): seq<byte> {
    if o.Emitted? then o.block else []
  }

  /** The writes of one block, in the order processFile issues them. */
  method WriteBlock(w: Writer, path: string, lang: string, text: seq<byte>)
    modifies w
    ensures w.bytes == old(w.bytes) + Block(path, lang, text)
  {
    ghost var start := w.bytes;
    w.WriteString("## File: " + path + "\n\n");
    w.WriteString("```" + lang + "\n");
    Associative(start, Encode("## File: " + path + "\n\n"), Encode("```" + lang + "\n"));
    ghost var s2 := w.bytes;
    w.Write(text);
    if |text| > 0 && text[|text| - 1] != NewLine {
      w.WriteString("\n");
      Associative(s2, text, Encode("\n"));
    }
    ghost var s3 := w.bytes;
    w.WriteString("```\n\n");
    w.WriteString("---\n\n");
    Associative(s3, Encode("```\n\n"), Encode("---\n\n"));
    Associative(start + Header(path, lang), Body(text), Footer());
    Associative(start, Header(path, lang), Body(text));
    Associative(start, Header(path, lang) + Body(text), Footer());
  }

  /** processFile: writes the block for path, or nothing. The source always
      returns a nil error, so there is no result. */
  method ProcessFile(w: Writer, fs: FS, cfg: Config, gbk: seq<byte> -> Option<seq<byte>>, path: string)
    modifies w
    ensures w.bytes == old(w.bytes) + Emission(Serialize(fs, cfg, gbk, path))
  {
    if path !in fs.stat {
      return;
    }
    var info := fs.stat[path];
    if info.isDir {
      return;
    }
    if info.size > cfg.maxFileSize {
      return;
    }
    if path !in fs.data {
      return;
    }
    var content := fs.data[path];
    var ext := ToLower(Ext(path));
    var isForceText := ext in cfg.textExts;
    if !isForceText && IsBinary(content) {
      return;
    }
    var converted := ConvertToUtf8(content, gbk);
    if converted.None? {
      return;
    }
    var text := converted.value.text;
    var lang := TrimPrefix(ext, ".");
    if lang == "" {
      lang := "text";
    }
    assert lang == Lang(path);
    WriteBlock(w, path, lang, text);
    assert Serialize(fs, cfg, gbk, path) == Emitted(Block(path, lang, text), converted.value.encoding);
  }
}
