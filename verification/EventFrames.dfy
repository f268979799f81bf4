/** How lines make frames and what a frame does, told of the lines and of the parser's answers. */
module EventFrames {
  import opened Prelude
  import opened EventStream

  // -------------------------------------------------------------------------- what a frame does

  /** The data of the frame is an object, and the name it is tagged with is the one in the object,
      or else that of the frame; where both are given they agree. */
  ghost predicate Tagged<P>(p: Platform<P>, d: Draft, tag: string, payload: P) {
    && d.data != []
    && exists declared :: p.json(Join(d.data)) == Object(declared, payload)
                          && (declared == Some(tag) || (declared == None && d.name == Some(tag)))
                          && (declared.Some? && d.name.Some? ==> declared == d.name)
  }

  lemma TaggedMeans<P>(p: Platform<P>, d: Draft, tag: string, payload: P)
    ensures d.data == [] || !p.json(Join(d.data)).Object? ==> !Tagged(p, d, tag, payload)
    ensures d.data != [] && p.json(Join(d.data)).Object? ==>
              var data := p.json(Join(d.data));
              (Tagged(p, d, tag, payload)
               <==> payload == data.payload && (if data.event.Some? then data.event else d.name) == Some(tag)
                    && !(data.event.Some? && d.name.Some? && d.name != data.event))
  {
    hide Join;
  }

  lemma OneMoreFrame<P>(delivered: seq<Frame<P>>, f: Frame<P>, g: Frame<P>)
    ensures delivered + [f] != delivered && (delivered + [f] == delivered + [g] <==> f == g)
  {
    assert (delivered + [f])[|delivered|] == f && (delivered + [g])[|delivered|] == g;
  }

  ghost predicate Adds<P>(before: seq<Frame<P>>, after: seq<Frame<P>>, f: Frame<P>) {
    after == before + [f]
  }

  /** A frame is delivered exactly if it is tagged, not as a heartbeat, and carries an id beyond the
      cursor; what is delivered is that id, that name and that payload. */
  lemma DeliveredExactly<P>(p: Platform<P>, d: Draft, client: Client<P>, f: Frame<P>)
    ensures Dispatch(p, d, client).delivered == client.delivered + [f]
       <==> Tagged(p, d, f.event, f.payload) && f.event != "heartbeat" && d.id == Some(f.id) && f.id > client.cursor
    ensures Dispatch(p, d, client).delivered == client.delivered
            || exists g :: Adds(client.delivered, Dispatch(p, d, client).delivered, g)
  {
    TaggedMeans(p, d, f.event, f.payload);
    OneMoreFrame(client.delivered, f, f);
    if d.data != [] && p.json(Join(d.data)).Object? {
      var data := p.json(Join(d.data));
      var tag := if data.event.Some? then data.event else d.name;
      if tag.Some? && d.id.Some? {
        var g := Frame(d.id.value, tag.value, data.payload);
        OneMoreFrame(client.delivered, f, g);
        assert Dispatch(p, d, client).delivered == client.delivered || Adds(client.delivered, Dispatch(p, d, client).delivered, g);
      }
    }
    hide Join, Tagged;
  }

  /** The cursor moves exactly to the id of a tagged frame, heartbeat or not, if that lies beyond. */
  lemma CursorExactly<P>(p: Platform<P>, d: Draft, client: Client<P>)
    ensures Dispatch(p, d, client).cursor
         == if d.id.Some? && d.id.value > client.cursor && exists tag, payload :: Tagged(p, d, tag, payload)
            then d.id.value else client.cursor
  {
    hide Join;
    if d.data != [] && p.json(Join(d.data)).Object? {
      var declared, payload := p.json(Join(d.data)).event, p.json(Join(d.data)).payload;
      if declared.Some? && (d.name.None? || d.name == declared) { assert Tagged(p, d, declared.value, payload); }
      if declared.None? && d.name.Some? { assert Tagged(p, d, d.name.value, payload); }
    }
  }

  /** One error is reported for a frame with data that is not tagged, or that is tagged, not as a
      heartbeat, and has no id; and none otherwise. */
  lemma ErrorsExactly<P>(p: Platform<P>, d: Draft, client: Client<P>)
    ensures Dispatch(p, d, client).errors
         == client.errors
            + if d.data != [] && forall tag, payload :: Tagged(p, d, tag, payload) ==> tag != "heartbeat" && d.id.None?
              then 1 else 0
  {
    hide Join;
    if d.data != [] && p.json(Join(d.data)).Object? {
      var declared, payload := p.json(Join(d.data)).event, p.json(Join(d.data)).payload;
      if declared.Some? && (d.name.None? || d.name == declared) { assert Tagged(p, d, declared.value, payload); }
      if declared.None? && d.name.Some? { assert Tagged(p, d, d.name.value, payload); }
    }
  }

  // --------------------------------------------------------------------------- lines to frames

  /** The data lines of a frame are joined by newlines. */
  lemma {:induction false} JoinMore(a: seq<string>, b: seq<string>)
    requires a != [] && b != []
    ensures Join(a + b) == Join(a) + "\n" + Join(b)
    decreases |a|
  {
    assert (a + b)[1..] == a[1..] + b;
    if |a| > 1 {
      JoinMore(a[1..], b);
      assert a[0] + "\n" + (Join(a[1..]) + "\n" + Join(b)) == (a[0] + "\n" + Join(a[1..])) + "\n" + Join(b);
    } else {
      assert a[1..] + b == b;
    }
  }

  lemma JoinOne(line: string)
    ensures Join([line]) == line
  {
  }

  /** What each kind of line adds to the frame: the last name and the last valid id win, every data
      line is kept in order without the one space that may lead it, and all else is ignored. */
  lemma LinesCollect<P>(p: Platform<P>, d: Draft, text: string)
    ensures Collect(p, d, "event:" + text) == Draft(Some(p.trim(text)), d.id, d.data)
    ensures Collect(p, d, "id:" + text) == Draft(d.name, if p.number(p.trim(text)).Some? then p.number(p.trim(text)) else d.id, d.data)
    ensures Collect(p, d, "data: " + text) == Draft(d.name, d.id, d.data + [text])
    ensures text == "" || text[0] != ' ' ==> Collect(p, d, "data:" + text) == Draft(d.name, d.id, d.data + [text])
    ensures Collect(p, d, ":" + text) == d
  {
    assert ("event:" + text)[6..] == text && ("event:" + text)[0] == 'e';
    assert ("id:" + text)[3..] == text && ("id:" + text)[0] == 'i';
    assert ("data: " + text)[5..] == " " + text && (" " + text)[1..] == text && ("data: " + text)[0] == 'd';
    assert ("data: " + text)[..5] == "data:";
    assert ("data:" + text)[5..] == text && ("data:" + text)[0] == 'd';
  }

  lemma OtherLines<P>(p: Platform<P>, d: Draft, line: string)
    requires !("event:" <= line) && !("id:" <= line) && !("data:" <= line)
    ensures Collect(p, d, line) == d
  {
  }

  /** Lines may end in CR LF as well as in LF. */
  lemma CrlfIsLf<P>(p: Platform<P>, s: State<P>, line: string, rest: string)
    requires '\n' !in line && s.buffer == "" && (line == "" || Last(line) != '\r')
    ensures Run(p, s, line + "\r\n" + rest) == Run(p, s, line + "\n" + rest)
  {
    RunLine(p, s, line, rest);
    RunLine(p, s, line + "\r", rest);
    assert line + "\r\n" + rest == (line + "\r") + "\n" + rest;
    assert Front(line + "\r") == line && Last(line + "\r") == '\r';
    hide Run, Dispatch, Collect;
  }
}
