/**
 * Messages as the mail service describes them: the id that the listing
 * returns, together with the metadata that the per-message fetch returns
 * (an optional size estimate in bytes and the requested headers).
 */
module Messages {

  datatype Option<T> = None | Some(value: T) {
    /** The value when there is one, otherwise the default. */
    function GetOr(default: T): T {
      match this
      case Some(v) => v
      case None => default
    }
  }

  type MessageId = string

  datatype Header = Header(name: string, value: string)

  /**
   * One listed message. A missing `sizeEstimate` field is None; a response
   * without a payload, or a payload without headers, is None in `headers`.
   */
  datatype Message = Message(id: MessageId, sizeEstimate: Option<int>, headers: Option<seq<Header>>)

  const SubjectHeader := "Subject"
  const FromHeader := "From"
  const NoSubject := "(No Subject)"
  const UnknownSender := "(Unknown Sender)"

  /**
   * The header lookup: the value of the first header whose name matches
   * exactly, or the default when none does.
   */
  function HeaderValue(headers: seq<Header>, name: string, default: string): (v: string)
    ensures (forall j :: 0 <= j < |headers| ==> headers[j].name != name) ==> v == default
    ensures forall i :: 0 <= i < |headers| && headers[i].name == name
              && (forall j :: 0 <= j < i ==> headers[j].name != name)
              ==> v == headers[i].value
    decreases |headers|
  {
    if headers == [] then default
    else if headers[0].name == name then headers[0].value
    else
      var rest := headers[1..];
      assert forall i :: 1 <= i < |headers| ==> headers[i] == rest[i - 1];
      HeaderValue(rest, name, default)
  }

  /**
   * Looking a header up in two header lists placed one after the other is
   * looking it up in the first, falling back to the second: a later
   * duplicate never wins over an earlier match.
   */
  lemma {:induction false} HeaderValueAppend(front: seq<Header>, back: seq<Header>, name: string, default: string)
    ensures HeaderValue(front + back, name, default)
         == HeaderValue(front, name, HeaderValue(back, name, default))
    decreases |front|
  {
    if front == [] {
      assert front + back == back;
    } else {
      assert (front + back)[0] == front[0];
      assert (front + back)[1..] == front[1..] + back;
      HeaderValueAppend(front[1..], back, name, default);
    }
  }

  /** The size estimate of a message, 0 when the field is missing. */
  function SizeOf(m: Message): int {
    m.sizeEstimate.GetOr(0)
  }

  /** The headers of a message, none when the payload or its header list is missing. */
  function HeadersOf(m: Message): seq<Header> {
    m.headers.GetOr([])
  }

  /** The subject header's value, or the "(No Subject)" placeholder. */
  function SubjectOf(m: Message): string {
    HeaderValue(HeadersOf(m), SubjectHeader, NoSubject)
  }

  /** The sender header's value, or the "(Unknown Sender)" placeholder. */
  function SenderOf(m: Message): string {
    HeaderValue(HeadersOf(m), FromHeader, UnknownSender)
  }

  /**
   * The subject and the sender of a message are the first matching header
   * values, with the fixed placeholders when no header matches. Names are
   * compared exactly, so a header called "subject" is not the subject.
   */
  lemma HeaderLookupExamples()
    ensures SubjectOf(Message("a", None, None)) == NoSubject
    ensures SenderOf(Message("a", None, Some([]))) == UnknownSender
    ensures SubjectOf(Message("a", None, Some([Header("subject", "hi")]))) == NoSubject
    ensures SubjectOf(Message("a", None, Some([Header("Subject", "one"), Header("Subject", "two")]))) == "one"
    ensures SenderOf(Message("a", None, Some([Header("Subject", "s"), Header("From", "ann")]))) == "ann"
  {
    assert "subject" != SubjectHeader by { assert "subject"[0] != SubjectHeader[0]; }
    assert "Subject" != FromHeader by { assert |"Subject"| != |FromHeader|; }
  }
}
