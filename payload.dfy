/**
 * The pure string logic of Api/Program.cs: validating and splitting the body of
 * POST /trigger-event, and framing each streamed message as a server-sent event.
 */
module Payload {
  import opened Wrappers

  // ---------------------------------------------------------------------------
  // string.IsNullOrWhiteSpace
  // ---------------------------------------------------------------------------

  /**
   * The 25 characters .NET classifies as white space: the separators of Unicode
   * categories Zs, Zl and Zp, and the control characters U+0009..U+000D and U+0085.
   */
  const WhiteSpaceChars: set<char> := {
    '\t', '\n', '\U{B}', '\U{C}', '\r', ' ', '\U{85}', '\U{A0}', '\U{1680}',
    '\U{2000}', '\U{2001}', '\U{2002}', '\U{2003}', '\U{2004}', '\U{2005}',
    '\U{2006}', '\U{2007}', '\U{2008}', '\U{2009}', '\U{200A}',
    '\U{2028}', '\U{2029}', '\U{202F}', '\U{205F}', '\U{3000}'
  }

  /** Char.IsWhiteSpace, decided by ranges of code points: exactly the listed characters. */
  predicate IsWhiteSpace(c: char): (b: bool)
    ensures b <==> c in WhiteSpaceChars
  {
    ('\t' <= c <= '\r') || c == ' ' || c == '\U{85}' || c == '\U{A0}' || c == '\U{1680}'
    || ('\U{2000}' <= c <= '\U{200A}') || c == '\U{2028}' || c == '\U{2029}'
    || c == '\U{202F}' || c == '\U{205F}' || c == '\U{3000}'
  }

  /** string.TrimStart(): drop the leading white space. */
  function TrimStart(s: string): string
  {
    if s != [] && IsWhiteSpace(s[0]) then TrimStart(s[1..]) else s
  }

  /**
   * string.IsNullOrWhiteSpace for a non-null string: true of the empty body and of a body
   * made only of white space, that is, exactly when trimming leaves nothing.
   */
  predicate IsNullOrWhiteSpace(s: string): (b: bool)
    ensures b <==> TrimStart(s) == []
  {
    TrimStartEmpty(s);
    forall i :: 0 <= i < |s| ==> IsWhiteSpace(s[i])
  }

  lemma {:induction false} TrimStartEmpty(s: string)
    ensures TrimStart(s) == [] <==> forall i :: 0 <= i < |s| ==> IsWhiteSpace(s[i])
  {
    if s != [] {
      TrimStartEmpty(s[1..]);
      assert forall i :: 0 < i < |s| ==> s[i] == s[1..][i - 1];
    }
  }

  // ---------------------------------------------------------------------------
  // string.Split(char)
  // ---------------------------------------------------------------------------

  /** The number of occurrences of `c` in `s`. */
  function Count(s: string, c: char): nat
  {
    if s == [] then 0 else (if s[0] == c then 1 else 0) + Count(s[1..], c)
  }

  /** The parts put back together with the separator between neighbours (string.Join). */
  function Join(parts: seq<string>, sep: char): string
    requires |parts| >= 1
  {
    if |parts| == 1 then parts[0] else parts[0] + [sep] + Join(parts[1..], sep)
  }

  /**
   * Split(sep) with no options: empty parts are kept, so there is one part more than
   * there are separators; no part holds the separator; joining the parts gives back `s`.
   */
  function Split(s: string, sep: char): (parts: seq<string>)
    ensures |parts| == Count(s, sep) + 1
    ensures forall i :: 0 <= i < |parts| ==> sep !in parts[i]
    ensures Join(parts, sep) == s
  {
    if s == [] then [""]
    else
      var rest := Split(s[1..], sep);
      if s[0] == sep then
        assert ([""] + rest)[1..] == rest;
        [""] + rest
      else
        var parts := [[s[0]] + rest[0]] + rest[1..];
        assert |rest| > 1 ==> parts[1..] == rest[1..];
        assert s == [s[0]] + s[1..];
        parts
  }

  /** A string without the separator splits into itself alone. */
  lemma {:induction false} SplitWithoutSeparator(s: string, sep: char)
    requires sep !in s
    ensures Split(s, sep) == [s]
  {
    CountAbsent(s, sep);
  }

  lemma {:induction false} CountAbsent(s: string, c: char)
    requires c !in s
    ensures Count(s, c) == 0
  {
    if s != [] {
      assert c !in s[1..];
      CountAbsent(s[1..], c);
    }
  }

  /** Splitting cuts at the first separator: the text before it is the first part. */
  lemma {:induction false} SplitAtFirstSeparator(head: string, sep: char, tail: string)
    requires sep !in head
    ensures Split(head + [sep] + tail, sep) == [head] + Split(tail, sep)
  {
    var s := head + [sep] + tail;
    if head == [] {
      assert s[1..] == tail;
    } else {
      assert s[1..] == head[1..] + [sep] + tail;
      assert sep !in head[1..];
      SplitAtFirstSeparator(head[1..], sep, tail);
      assert [head[0]] + head[1..] == head;
    }
  }

  // ---------------------------------------------------------------------------
  // POST /trigger-event
  // ---------------------------------------------------------------------------

  /** Why a trigger body is rejected with 400 Bad Request. */
  datatype TriggerError =
    | EmptyPayload  // null, empty or white space only
    | BadFormat     // not exactly one ':'

  /**
   * The validation of the trigger body: reject a blank body, then split on ':' and
   * require exactly two parts; the parts are the key and value, untrimmed.
   */
  function ParseTrigger(payload: string): (r: Result<(string, string), TriggerError>)
    ensures r == Failure(EmptyPayload) <==> IsNullOrWhiteSpace(payload)
    ensures r == Failure(BadFormat) <==> !IsNullOrWhiteSpace(payload) && Count(payload, ':') != 1
    ensures r.Success? ==> ':' !in r.value.0 && ':' !in r.value.1
    ensures r.Success? ==> payload == r.value.0 + ":" + r.value.1
  {
    if IsNullOrWhiteSpace(payload) then Failure(EmptyPayload)
    else
      var data := Split(payload, ':');
      if |data| != 2 then Failure(BadFormat)
      else
        assert data[1..] == [data[1]];
        assert Join(data, ':') == data[0] + [':'] + data[1];
        Success((data[0], data[1]))
  }

  /** ':' is not white space, so a body holding a colon is never blank. */
  lemma ColonBodyIsNotBlank(payload: string)
    requires ':' in payload
    ensures !IsNullOrWhiteSpace(payload)
  {
    var i :| 0 <= i < |payload| && payload[i] == ':';
    assert !IsWhiteSpace(payload[i]);
  }

  /**
   * Round trip: a key and a value without ':' joined by one ':' parse back to exactly
   * that key and value, untrimmed, the empty ones included.
   */
  lemma ParseRoundTrip(key: string, value: string)
    requires ':' !in key && ':' !in value
    ensures ParseTrigger(key + ":" + value) == Success((key, value))
  {
    var payload := key + ":" + value;
    assert payload[|key|] == ':';
    ColonBodyIsNotBlank(payload);
    SplitAtFirstSeparator(key, ':', value);
    SplitWithoutSeparator(value, ':');
  }

  /** A lone colon is an empty key with an empty value. */
  lemma LoneColonExample()
    ensures ParseTrigger(":") == Success(("", ""))
  {
    ParseRoundTrip("", "");
  }

  /** A non-blank body without ':' splits into one part and is malformed. */
  lemma NoSeparatorRejected(payload: string)
    requires ':' !in payload && !IsNullOrWhiteSpace(payload)
    ensures ParseTrigger(payload) == Failure(BadFormat)
  {
    CountAbsent(payload, ':');
  }

  /** A body with two or more ':' splits into three or more parts and is malformed. */
  lemma ManySeparatorsRejected(payload: string)
    requires Count(payload, ':') >= 2
    ensures ParseTrigger(payload) == Failure(BadFormat)
  {
    if ':' !in payload {
      CountAbsent(payload, ':');
    }
    ColonBodyIsNotBlank(payload);
  }

  /**
   * The body is not checked for line breaks: a value holding one is accepted whole and
   * later written inside its frame as it is.
   */
  lemma LineBreakAccepted()
    ensures ParseTrigger("k:a\nb") == Success(("k", "a\nb"))
    ensures Frame("a\nb") == "data: a\nb\n\n"
  {
    ParseRoundTrip("k", "a\nb");
  }

  /** A body with two separators is malformed. */
  lemma TwoSeparatorsExample()
    ensures ParseTrigger("a:b:c") == Failure(BadFormat)
  {
    var body := "a:b:c";
    assert body[1] == ':';
    ColonBodyIsNotBlank(body);
    assert Count(body, ':') == 2 by {
      assert body[1..] == ":b:c";
      assert ":b:c"[1..] == "b:c";
      assert "b:c"[1..] == ":c";
      assert ":c"[1..] == "c";
      assert "c"[1..] == "";
    }
  }

  /** Empty and blank bodies are rejected as empty. */
  lemma BlankExamples()
    ensures ParseTrigger("") == Failure(EmptyPayload)
    ensures ParseTrigger(" \t\r\n") == Failure(EmptyPayload)
  {
  }

  // ---------------------------------------------------------------------------
  // Server-sent event framing
  // ---------------------------------------------------------------------------

  const DataPrefix: string := "data: "
  const EventEnd: string := "\n\n"

  /** One streamed message as written to the response: a data field ended by a blank line. */
  function Frame(message: string): (f: string)
    ensures |f| == |DataPrefix| + |message| + |EventEnd|
    ensures f[..|DataPrefix|] == DataPrefix
    ensures f[|DataPrefix|..|f| - |EventEnd|] == message
    ensures f[|f| - |EventEnd|..] == EventEnd
  {
    DataPrefix + message + EventEnd
  }

  /** Recover the message from one frame, or None when the text is not a frame. */
  function Unframe(f: string): Option<string>
  {
    if |f| >= |DataPrefix| + |EventEnd| && f[..|DataPrefix|] == DataPrefix && f[|f| - |EventEnd|..] == EventEnd
    then Some(f[|DataPrefix|..|f| - |EventEnd|])
    else None
  }

  /** Framing loses nothing: the message is read back from its frame. */
  lemma UnframeFrame(message: string)
    ensures Unframe(Frame(message)) == Some(message)
  {
  }

  /** Every text that reads as a frame is the frame of the message read from it. */
  lemma FrameUnframe(f: string)
    requires Unframe(f).Some?
    ensures Frame(Unframe(f).value) == f
  {
    assert f == f[..|DataPrefix|] + f[|DataPrefix|..|f| - |EventEnd|] + f[|f| - |EventEnd|..];
  }

  /** The writes made for a stream of messages: one frame per message, in delivery order. */
  function Frames(messages: seq<string>): (frames: seq<string>)
    ensures |frames| == |messages|
    ensures forall i :: 0 <= i < |messages| ==> frames[i] == Frame(messages[i])
  {
    seq(|messages|, i requires 0 <= i < |messages| => Frame(messages[i]))
  }

  /** Forwarding two runs of messages one after the other writes their frames one after the other. */
  lemma FramesAppend(a: seq<string>, b: seq<string>)
    ensures Frames(a + b) == Frames(a) + Frames(b)
  {
  }

  /** A list of writes that holds, at each position, the frame of the message there, is that list's frames. */
  lemma FramesOf(written: seq<string>, messages: seq<string>)
    requires |written| == |messages|
    requires forall i :: 0 <= i < |messages| ==> written[i] == Frame(messages[i])
    ensures written == Frames(messages)
  {
  }

  /** Writing the frame of the next message extends the frames of the ones before it. */
  lemma FramesSnoc(written: seq<string>, target: seq<string>, n: nat)
    requires n < |target| && |written| == n
    requires forall i :: 0 <= i < n ==> written[i] == Frame(target[i])
    ensures forall i :: 0 <= i < n + 1 ==> (written + [Frame(target[n])])[i] == Frame(target[i])
  {
  }
}
