/** A chunked body that the scanner accepts and the decoder in memory refuses. */
module ChunkedRefusal {
  import opened Wrappers
  import opened Characters
  import opened Chunked
  import opened ChunkedAgree

  /** An empty body whose one size is followed by a space. */
  const PADDED := Ascii("0 \r\n\r\n")

  /** The scanner accepts it, and the payload does not decode. */
  lemma {:induction false} PaddedRefused(u: Utf8)
    requires IsUtf8(u)
    ensures Entity(EntityTurns(u), PADDED, 0, []) == Ok([])
    ensures HasPadding(u, PADDED) && Transfer(TransferTurns(u), PADDED, []).Err?
  {
    PaddedScanned(u);
    PaddedSizes(u);
    PaddedLayout();
    assert TransferTurns(u)(PADDED, 0).Err?;
    DecodersAgree(u, PADDED);
  }

  lemma {:induction false} PaddedScanned(u: Utf8)
    requires IsUtf8(u)
    ensures Entity(EntityTurns(u), PADDED, 0, []) == Ok([])
  {
    PaddedSizes(u);
    PaddedLayout();
    assert EntityTurns(u)(PADDED, 0) == Ok(Last);
  }

  lemma {:induction false} PaddedSizes(u: Utf8)
    requires IsUtf8(u)
    ensures EntitySize(u, Ascii("0 \r\n")) == Some(0) && TransferSize(u, Ascii("0 ")) == None
  {
    assert TrimStart("0 \r\n") == "0 \r\n";
    SpacesTrimmed();
    assert BeforeSemicolon("0") == "0" && FromHex("0") == Some(0);
    assert BeforeSemicolon(" ") == " " && BeforeSemicolon("0 ") == "0 ";
    assert IsAscii("0 ") && IsAscii("0 \r\n");
  }

  lemma {:induction false} SpacesTrimmed()
    ensures TrimEnd("0 \r\n") == "0"
  {
    assert "0 \r\n"[..3] == "0 \r" && "0 \r"[..2] == "0 " && "0 "[..1] == "0";
    assert TrimEnd("0 \r") == TrimEnd("0 ") == TrimEnd("0") == "0";
  }

  lemma {:induction false} PaddedLayout()
    ensures RawLine(PADDED) == Ascii("0 \r\n") && EndsWith(Ascii("0 \r\n"), CRLF)
    ensures PADDED[4..] == CRLF && TrailerOk(CRLF, 0)
    ensures CrlfAt(PADDED) == Some(2) && PADDED[..2] == Ascii("0 ")
  {
    LineIs(PADDED, 0, 3);
    LineIs(CRLF, 0, 1);
    CrlfIs(PADDED, 0, 2);
  }
}
