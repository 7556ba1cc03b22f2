/** The names, marks and limits of the header grammar, told literally. */
module Names {
  import opened Octets
  import opened Numerals
  import H = HeaderGrammar
  import C = ChunkGrammar

  lemma LetterCodes(i: nat)
    requires i < |SMALL|
    ensures |SMALL| == 26 && Letters(i) == {97 + i, 65 + i}
  {
  }

  /** Two bytes that fold to the same one are the same letter in either case, or the same byte. */
  lemma FoldIff(b: byte, c: byte)
    ensures H.ToLower(b) == H.ToLower(c) <==> SameLetter(b, c)
  {
    hide Letters;
    if H.ToLower(b) == H.ToLower(c) && b != c {
      var i := if 65 <= b <= 90 then b - 65 else c - 65;
      LetterCodes(i);
      assert b in Letters(i) && c in Letters(i);
    } else if b != c && SameLetter(b, c) {
      var i :| 0 <= i < |SMALL| && b in Letters(i) && c in Letters(i);
      LetterCodes(i);
    }
  }

  /** Comparing without regard to case recognises exactly the spellings of a text. */
  lemma EqualNoCaseIff(s: Bytes, text: Bytes)
    ensures H.EqualNoCase(s, text) <==> Spells(s, text)
  {
    hide SameLetter, H.ToLower;
    if H.EqualNoCase(s, text) {
      forall i | 0 <= i < |s| ensures SameLetter(s[i], text[i]) {
        assert H.Lower(s)[i] == H.Lower(text)[i];
        FoldIff(s[i], text[i]);
      }
    }
    if Spells(s, text) {
      forall i | 0 <= i < |s| ensures H.Lower(s)[i] == H.Lower(text)[i] {
        FoldIff(s[i], text[i]);
      }
    }
  }

  /** The fields, values, methods and codes the header decides by, in any case. */
  lemma NamesAreTheStandards(s: Bytes, f: H.Field)
    ensures H.IsHostField(f) <==> Spells(f.name, Ascii("host"))
    ensures H.IsLengthField(f) <==> Spells(f.name, Ascii("content-length"))
    ensures H.IsChunkedField(f) <==> Spells(f.name, Ascii("transfer-encoding")) && Spells(f.value, Ascii("chunked"))
    ensures H.KnownMethod(s) <==> Spells(s, Ascii("GET")) || Spells(s, Ascii("POST")) || Spells(s, Ascii("HEAD"))
    ensures H.EqualNoCase(s, H.HTTP_1_1) <==> Spells(s, Ascii("HTTP/1.1"))
    ensures H.NOT_MODIFIED == Ascii("304")
  {
    hide H.EqualNoCase, Spells;
    EqualNoCaseIff(f.name, H.HOST);
    EqualNoCaseIff(f.name, H.CONTENT_LENGTH);
    EqualNoCaseIff(f.name, H.TRANSFER_ENCODING);
    EqualNoCaseIff(f.value, H.CHUNKED);
    EqualNoCaseIff(s, H.GET);
    EqualNoCaseIff(s, H.POST);
    EqualNoCaseIff(s, H.HEAD);
    EqualNoCaseIff(s, H.HTTP_1_1);
    assert H.HOST == Ascii("host") && H.CHUNKED == Ascii("chunked") && H.HTTP_1_1 == Ascii("HTTP/1.1");
    assert H.CONTENT_LENGTH == Ascii("content-length") && H.TRANSFER_ENCODING == Ascii("transfer-encoding");
    assert H.GET == Ascii("GET") && H.POST == Ascii("POST") && H.HEAD == Ascii("HEAD");
  }

  /** A header is refused for want of a host exactly if it is that of an HTTP/1.1 request. */
  lemma AcceptableIff(stream: H.StreamType, m: H.Message)
    ensures H.Acceptable(stream, m) <==>
      stream == H.Response || !Spells(m.line3, Ascii("HTTP/1.1")) ||
      exists i :: 0 <= i < |m.fields| && Spells(m.fields[i].name, Ascii("host"))
  {
    NamesAreTheStandards(m.line3, H.Field([], []));
    hide Spells, H.IsHostField;
    forall i | 0 <= i < |m.fields|
      ensures H.IsHostField(m.fields[i]) <==> Spells(m.fields[i].name, Ascii("host"))
    {
      NamesAreTheStandards([], m.fields[i]);
    }
  }

  /** What is no control character is a printable one, from the blank to the tilde. */
  lemma CtlIff(b: byte)
    ensures H.IsCtl(b) <==> b < ' ' as int || b > '~' as int
  {
  }

  /** The marks the printer puts between texts, and the limits of the scanners. */
  lemma MarksAndLimits()
    ensures [CR, LF, SP, COLON] == Ascii("\r\n :")
    ensures SPACE == Ascii(" ") && ENDLINE == Ascii("\r\n") && FIELD_SEP == Ascii(": ")
    ensures H.MAX_FIELD_LENGTH == 512 && CHUNK_SIZE_LENGTH == 8 && C.MAX_SPACES == 256
  {
  }
}
