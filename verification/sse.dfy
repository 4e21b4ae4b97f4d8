/**
  The server-sent-events framing of `sse()` in both apps: each event goes
  out as an `event:` line with its name, a `data:` line with its JSON
  payload, and a blank line. The JSON serialisation itself is a parameter;
  `json.dumps` with default settings writes one line, which is all the
  framing needs of it.
 */
module Sse {
  import opened Wrappers
  import opened Text
  import opened Urls
  import opened Events

  const EventTag: string := "event: "
  const DataTag: string := "data: "

  /** `sse(event, data)` with the payload already serialised. */
  function Frame(name: string, payload: string): string {
    EventTag + name + "\n" + DataTag + payload + "\n\n"
  }

  /** The text up to the first newline and the text after it, or `None`
      when there is no newline. */
  function Line(s: string): (r: Option<(string, string)>)
    ensures r.Some? ==> '\n' !in r.value.0 && s == r.value.0 + "\n" + r.value.1
    ensures r.None? <==> '\n' !in s
  {
    var l := Before(s, '\n');
    if |l| == |s| then
      assert l == s;
      None
    else
      assert s == l + "\n" + s[|l| + 1..];
      Some((l, s[|l| + 1..]))
  }

  /** The line before the first newline is the whole of a newline-free
      prefix. */
  lemma LineOf(x: string, y: string)
    requires '\n' !in x
    ensures Line(x + "\n" + y) == Some((x, y))
  {
    var s := x + "\n" + y;
    assert s[|x|] == '\n' && s[..|x|] == x;
    assert s[|x| + 1..] == y;
  }

  /** Reads one frame from the front of `s`: the event name, the payload
      and what follows the frame. */
  function ParseFrame(s: string): (r: Option<(string, string, string)>)
    ensures r.Some? ==> |r.value.2| < |s|
  {
    if !StartsWith(s, EventTag) then None
    else match Line(s[|EventTag|..])
      case None => None
      case Some((name, s1)) =>
        if !StartsWith(s1, DataTag) then None
        else match Line(s1[|DataTag|..])
          case None => None
          case Some((payload, s2)) =>
            if s2 == [] || s2[0] != '\n' then None else Some((name, payload, s2[1..]))
  }

  /** A frame whose name and payload are single lines reads back as that
      name and payload, whatever follows it. */
  lemma ParseFrameOfFrame(name: string, payload: string, rest: string)
    requires '\n' !in name && '\n' !in payload
    ensures ParseFrame(Frame(name, payload) + rest) == Some((name, payload, rest))
  {
    var s2 := "\n" + rest;
    var body1 := payload + "\n" + s2;
    var s1 := DataTag + body1;
    var body0 := name + "\n" + s1;
    var s := Frame(name, payload) + rest;
    assert s == EventTag + body0;
    assert s[|EventTag|..] == body0;
    LineOf(name, s1);
    assert s1[|DataTag|..] == body1;
    LineOf(payload, s2);
    assert s2[1..] == rest;
  }

  /** The wire text of a trace: one frame per event, in order. */
  function Encode(t: seq<Event>, json: Event -> string): string {
    if t == [] then [] else Frame(t[0].Name(), json(t[0])) + Encode(t[1..], json)
  }

  /** Reads frames until the text is used up; `None` if some part of it is
      not a frame. */
  function Decode(s: string): Option<seq<(string, string)>>
    decreases |s|
  {
    if s == [] then Some([])
    else match ParseFrame(s)
      case None => None
      case Some((name, payload, rest)) =>
        match Decode(rest)
        case None => None
        case Some(frames) => Some([(name, payload)] + frames)
  }

  lemma NameIsOneLine(e: Event)
    ensures '\n' !in e.Name()
  {
  }

  /** The name and payload of each event, in trace order. */
  function Frames(t: seq<Event>, json: Event -> string): (r: seq<(string, string)>)
    ensures |r| == |t|
    ensures forall i :: 0 <= i < |t| ==> r[i] == (t[i].Name(), json(t[i]))
  {
    if t == [] then [] else [(t[0].Name(), json(t[0]))] + Frames(t[1..], json)
  }

  /** The wire text of any trace decodes to the events' names and payloads,
      in trace order, provided the serialiser writes single lines. */
  lemma {:induction false} DecodeEncode(t: seq<Event>, json: Event -> string)
    requires forall e :: '\n' !in json(e)
    ensures Decode(Encode(t, json)) == Some(Frames(t, json))
  {
    if t != [] {
      var rest := Encode(t[1..], json);
      NameIsOneLine(t[0]);
      ParseFrameOfFrame(t[0].Name(), json(t[0]), rest);
      DecodeEncode(t[1..], json);
    }
  }
}
