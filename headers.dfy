/**
 * The title and sender shown for one new message (Mailbox.get_header): the first
 * decoded chunk of the Subject and From headers, with a placeholder title when the
 * message has no Subject.
 */
module Headers {
  import opened Wrappers
  import opened ByteString

  const NoTitle: string := "<without title>"

  /**
   * The first pair `decode_header` returns for a header. `Plain` is a header with no
   * encoded words (text, no charset). `Encoded` is an encoded word: its bytes,
   * the charset label, and the outcome of reading those bytes as UTF-8 (None when
   * that raises UnicodeDecodeError). `Unencoded` is the unencoded part of a mixed
   * header (bytes, no charset).
   */
  datatype Chunk =
    | Plain(text: string)
    | Encoded(raw: seq<byte>, charset: string, utf8: Option<string>)
    | Unencoded(raw: seq<byte>)

  /** A header field as shown: text, or bytes left undecoded when no charset came with them. */
  datatype Field = Text(text: string) | Bytes(raw: seq<byte>)

  /** A fetched message, reduced to the first decoded chunk of its Subject and From; None when absent. */
  datatype Message = Message(subject: Option<Chunk>, from: Option<Chunk>)

  datatype Header = Header(subject: Field, sender: Field)

  datatype HeaderError =
    | UndecodableSubject
    | MissingSender
    | UndecodableSender

  /**
   * `if message_encoding is not None: value = value.decode('utf-8')`: bytes that
   * carry a charset label are read as UTF-8 whatever the label says.
   */
  function Decode(c: Chunk): (r: Option<Field>)
    ensures c.Plain? ==> r == Some(Text(c.text))
    ensures c.Unencoded? ==> r == Some(Bytes(c.raw))
    ensures c.Encoded? ==> (r.Some? <==> c.utf8.Some?)
    ensures c.Encoded? && r.Some? ==> r.value == Text(c.utf8.value)
  {
    match c
    case Plain(t) => Some(Text(t))
    case Encoded(_, _, utf8) => if utf8.Some? then Some(Text(utf8.value)) else None
    case Unencoded(raw) => Some(Bytes(raw))
  }

  /**
   * `get_header` after the fetch. A missing Subject makes `decode_header` raise
   * TypeError, which is caught and replaced by the placeholder title; a missing
   * From raises the same error uncaught. The subject is decoded before the sender.
   */
  function GetHeader(m: Message): (r: Result<Header, HeaderError>)
    ensures r.Ok? <==>
      (m.subject.None? || Decode(m.subject.value).Some?) && m.from.Some? && Decode(m.from.value).Some?
    ensures r.Ok? && m.subject.None? ==> r.value.subject == Text(NoTitle)
    ensures r.Ok? && m.subject.Some? ==> Some(r.value.subject) == Decode(m.subject.value)
    ensures r.Ok? ==> Some(r.value.sender) == Decode(m.from.value)
    ensures r.Err? && m.subject.Some? && Decode(m.subject.value).None? ==> r.error == UndecodableSubject
    ensures r.Err? && (m.subject.None? || Decode(m.subject.value).Some?) && m.from.None? ==> r.error == MissingSender
  {
    var subject := if m.subject.None? then Some(Text(NoTitle)) else Decode(m.subject.value);
    if subject.None? then Err(UndecodableSubject)
    else if m.from.None? then Err(MissingSender)
    else
      var sender := Decode(m.from.value);
      if sender.None? then Err(UndecodableSender) else Ok(Header(subject.value, sender.value))
  }

  /** The charset label never changes the outcome: only the UTF-8 reading of the bytes does. */
  lemma LabelIgnored(m: Message, raw: seq<byte>, label1: string, label2: string, utf8: Option<string>)
    ensures GetHeader(m.(subject := Some(Encoded(raw, label1, utf8))))
         == GetHeader(m.(subject := Some(Encoded(raw, label2, utf8))))
    ensures GetHeader(m.(from := Some(Encoded(raw, label1, utf8))))
         == GetHeader(m.(from := Some(Encoded(raw, label2, utf8))))
  {
  }

  /** The sender shown never depends on the Subject, and the title never on the From header. */
  lemma FieldsIndependent(m: Message, subject: Option<Chunk>, from: Chunk)
    requires GetHeader(m).Ok?
    requires GetHeader(m.(subject := subject)).Ok? && GetHeader(m.(from := Some(from))).Ok?
    ensures GetHeader(m.(subject := subject)).value.sender == GetHeader(m).value.sender
    ensures GetHeader(m.(from := Some(from))).value.subject == GetHeader(m).value.subject
  {
  }
}
