/** cJSON_Minify: the text is overwritten with its minified form in place. */
module JsonMinifier {
  import opened CText
  import opened JsonMinify

  // The read cursor stands at the suffix text[json..] not yet read, behind what is written so far.
  ghost predicate Unread(text: array<char>, was: Text, into: nat, json: nat)
    reads text
  {
    && NulFree(was) && into <= json <= |was| < text.Length
    && text[json..|was|] == was[json..]
    && text[|was|] == '\0'
  }

  // What is written is the minified form of what is read; between two tokens.
  ghost predicate Outside(text: array<char>, was: Text, into: nat, json: nat, goal: Text)
    reads text
  {
    Unread(text, was, into, json) && Closed(was[json..]) && text[..into] + JsonMinify.Minify(was[json..]) == goal
  }

  // The same inside a string literal.
  ghost predicate Inside(text: array<char>, was: Text, into: nat, json: nat, goal: Text)
    reads text
  {
    Unread(text, was, into, json) && ClosedLiteral(was[json..]) && text[..into] + MinifyLiteral(was[json..]) == goal
  }

  lemma Read(text: array<char>, was: Text, into: nat, json: nat)
    requires Unread(text, was, into, json)
    ensures text[json] == At(was[json..], 0)
    ensures json < |was| ==> text[json + 1] == At(was[json..], 1)
    ensures json < |was| ==> was[json..][1..] == was[json + 1..] && Unread(text, was, into, json + 1)
  {
    assert json < |was| ==> text[json..|was|][0] == text[json];
    assert json + 1 < |was| ==> text[json..|was|][1] == text[json + 1];
    assert json < |was| ==> text[json + 1..|was|] == text[json..|was|][1..];
  }

  // Copies one character: the write cursor is never ahead of the read cursor.
  method CopyChar(text: array<char>, ghost was: Text, into: nat, json: nat)
    requires Unread(text, was, into, json) && json < |was|
    modifies text
    ensures Unread(text, was, into + 1, json + 1) && text[..into + 1] == old(text[..into]) + [was[json]]
  {
    Read(text, was, into, json);
    text[into] := text[json];
    assert text[json + 1..|was|] == old(text[json + 1..|was|]);
    assert text[..into] == old(text[..into]);
  }

  method SkipLine(text: array<char>, ghost was: Text, ghost into: nat, json: nat) returns (end: nat)
    requires Unread(text, was, into, json)
    ensures Unread(text, was, into, end) && was[end..] == DropLine(was[json..])
  {
    end := json;
    Read(text, was, into, end);
    while text[end] != '\0' && text[end] != '\n'
      invariant Unread(text, was, into, end) && text[end] == At(was[end..], 0)
      invariant DropLine(was[end..]) == DropLine(was[json..])
      decreases |was| - end
    {
      end := end + 1;
      Read(text, was, into, end);
    }
  }

  method SkipBlock(text: array<char>, ghost was: Text, ghost into: nat, json: nat) returns (end: nat)
    requires Unread(text, was, into, json)
    requires SeekBlockEnd(was[json..]) != []
    ensures Unread(text, was, into, end) && was[end..] == SeekBlockEnd(was[json..])[2..]
  {
    end := json;
    Read(text, was, into, end);
    while text[end] != '\0' && !(text[end] == '*' && text[end + 1] == '/')
      invariant Unread(text, was, into, end) && text[end] == At(was[end..], 0)
      invariant end < |was| ==> text[end + 1] == At(was[end..], 1)
      invariant SeekBlockEnd(was[end..]) == SeekBlockEnd(was[json..])
      decreases |was| - end
    {
      end := end + 1;
      Read(text, was, into, end);
    }
    assert end + 2 <= |was| && was[end..][2..] == was[end + 2..];
    Read(text, was, into, end);
    Read(text, was, into, end + 1);
    end := end + 2;
  }

  // One character of a literal, or two when the first is a backslash.
  method CopyInside(text: array<char>, ghost was: Text, into: nat, json: nat, ghost goal: Text)
    returns (written: nat, end: nat)
    requires Inside(text, was, into, json, goal) && json < |was| && was[json] != '"'
    modifies text
    ensures Inside(text, was, written, end, goal) && json < end
  {
    written, end := into, json;
    ghost var done := text[..into];
    Read(text, was, written, end);
    if text[end] == '\\' {
      CopyChar(text, was, written, end);
      written, end := written + 1, end + 1;
    }
    CopyChar(text, was, written, end);
    written, end := written + 1, end + 1;
    assert text[..written] == done + was[json..end];
    InsideStep(done, was, json, end);
  }

  lemma InsideStep(done: Text, was: Text, json: nat, end: nat)
    requires json < |was| && ClosedLiteral(was[json..]) && was[json] != '"'
    requires end == json + if was[json] == '\\' then 2 else 1
    ensures end <= |was| && ClosedLiteral(was[end..])
    ensures done + was[json..end] + MinifyLiteral(was[end..]) == done + MinifyLiteral(was[json..])
  {
    var s, n := was[json..], end - json;
    assert n <= |s|;
    assert s[n..] == was[end..] && s[..n] == was[json..end];
    assert s[..n] == if n == 2 then [s[0], s[1]] else [s[0]];
    Assoc(done, s[..n], MinifyLiteral(was[end..]));
  }

  // From behind the opening quote to behind the closing one.
  method CopyLiteral(text: array<char>, ghost was: Text, into: nat, json: nat, ghost goal: Text)
    returns (written: nat, end: nat)
    requires Inside(text, was, into, json, goal)
    modifies text
    ensures Outside(text, was, written, end, goal) && json < end
  {
    written, end := into, json;
    Read(text, was, written, end);
    while text[end] != '\0' && text[end] != '"'
      invariant Inside(text, was, written, end, goal) && json <= end
      invariant text[end] == At(was[end..], 0)
      decreases |was| - end
    {
      written, end := CopyInside(text, was, written, end, goal);
      Read(text, was, written, end);
    }
    CopyChar(text, was, written, end);
    Assoc(text[..written], [was[end]], JsonMinify.Minify(was[end + 1..]));
    written, end := written + 1, end + 1;
  }

  // One turn of the outer loop.
  method Advance(text: array<char>, ghost was: Text, into: nat, json: nat, ghost goal: Text)
    returns (written: nat, end: nat)
    requires Outside(text, was, into, json, goal) && json < |was|
    modifies text
    ensures Outside(text, was, written, end, goal) && json < end
  {
    written, end := into, json;
    Read(text, was, into, json);
    if IsLayout(text[json]) {
      end := json + 1;
    } else if text[json] == '/' && text[json + 1] == '/' {
      end := SkipLine(text, was, into, json);
    } else if text[json] == '/' && text[json + 1] == '*' {
      end := SkipBlock(text, was, into, json);
    } else {
      var quoted := text[json] == '"';
      ghost var done := text[..into];
      CopyChar(text, was, into, json);
      written, end := into + 1, json + 1;
      if quoted {
        Assoc(done, [was[json]], MinifyLiteral(was[end..]));
        written, end := CopyLiteral(text, was, written, end, goal);
      } else {
        Assoc(done, [was[json]], JsonMinify.Minify(was[end..]));
      }
    }
  }

  // cJSON_Minify.
  method Minify(text: array<char>, ghost was: Text)
    requires HasText(text, was) && NulFree(was) && Closed(was)
    modifies text
    ensures HasText(text, JsonMinify.Minify(was))
  {
    ghost var goal := JsonMinify.Minify(was);
    var into: nat, json: nat := 0, 0;
    assert was[0..] == was;
    assert text[..0] + goal == goal;
    Read(text, was, into, json);
    while text[json] != '\0'
      invariant Outside(text, was, into, json, goal) && text[json] == At(was[json..], 0)
      decreases |was| - json
    {
      into, json := Advance(text, was, into, json, goal);
      Read(text, was, into, json);
    }
    text[into] := '\0';
  }
}
