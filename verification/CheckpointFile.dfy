/** The checkpoint file: one checkpoint flattened to one line, overwritten in place. */
module CheckpointFile {
  import opened Prelude
  import opened Consistency

  /** The scanner refuses a line that fills its 64 KiB buffer. Characters stand for bytes. */
  const MAX_TOKEN: int := 65536

  /** strings.ReplaceAll(t, "\n", "\\n") in Go's notation. */
  function Escape(t: string): string {
    if t == "" then "" else (if t[0] == '\n' then "\\n" else [t[0]]) + Escape(t[1..])
  }

  /** strings.ReplaceAll(t, "\\n", "\n") in Go's notation: leftmost matches first, without overlap. */
  function Unescape(t: string): string {
    if |t| < 2 then t
    else if t[0] == '\\' && t[1] == 'n' then "\n" + Unescape(t[2..])
    else [t[0]] + Unescape(t[1..])
  }

  /** A backslash directly followed by an `n`. */
  predicate HasEscape(t: string) {
    exists k :: 0 < k < |t| && t[k - 1] == '\\' && t[k] == 'n'
  }

  predicate EndsWithCR(t: string) {
    |t| > 0 && t[|t| - 1] == '\r'
  }

  function DropCR(line: string): string {
    if EndsWithCR(line) then line[..|line| - 1] else line
  }

  /** The position of the first newline, or the length of the text. */
  function LineEnd(t: string): (k: nat)
    ensures k <= |t| && (k < |t| ==> t[k] == '\n')
    ensures forall j :: 0 <= j < k ==> t[j] != '\n'
  {
    if t == "" || t[0] == '\n' then 0 else 1 + LineEnd(t[1..])
  }

  /** The last line a line scanner yields, `line` being what it yielded before. */
  function LastLine(rest: string, line: string): Result<string>
    decreases |rest|
  {
    if rest == "" then Ok(line)
    else
      var k := LineEnd(rest);
      if k >= MAX_TOKEN then Err("token too long")
      else if k == |rest| then Ok(DropCR(rest))
      else LastLine(rest[k + 1..], DropCR(rest[..k]))
  }

  /** The text a reader of the file gets. */
  function Reread(content: string): Result<string> {
    match LastLine(content, "")
    case Err(e) => Err(e)
    case Ok(line) => Ok(Unescape(line))
  }

  /** The file's bytes after a checkpoint text was written to it. */
  function Flattened(t: string): string {
    Escape(t) + "\n"
  }

  /** Escaping works character by character, and replaces newlines only. */
  lemma {:induction false} EscapeExactly(a: string, c: char, b: string)
    ensures Escape(a + [c] + b) == Escape(a) + (if c == '\n' then ['\\', 'n'] else [c]) + Escape(b)
    decreases |a|
  {
    var t := a + [c] + b;
    if a == "" {
      assert t[0] == c && t[1..] == b;
    } else {
      assert t[0] == a[0] && t[1..] == a[1..] + [c] + b;
      EscapeExactly(a[1..], c, b);
    }
  }

  /** Unescaping replaces the first backslash before an `n`, and goes on after it. */
  lemma {:induction false} UnescapeExactly(a: string, b: string)
    requires forall k :: 0 < k < |a| ==> !(a[k - 1] == '\\' && a[k] == 'n')
    ensures Unescape(a + ['\\', 'n'] + b) == a + ['\n'] + Unescape(b)
    decreases |a|
  {
    var t := a + ['\\', 'n'] + b;
    if a == "" {
      assert t[0] == '\\' && t[1] == 'n' && t[2..] == b;
    } else {
      assert t[0] == a[0] && t[1] == (if |a| > 1 then a[1] else '\\');
      assert t[1..] == a[1..] + ['\\', 'n'] + b;
      UnescapeExactly(a[1..], b);
      assert a + ['\n'] + Unescape(b) == [a[0]] + (a[1..] + ['\n'] + Unescape(b));
    }
  }

  lemma {:induction false} EscapeIsOneLine(t: string)
    ensures forall k :: 0 <= k < |Escape(t)| ==> Escape(t)[k] != '\n'
    ensures |t| <= |Escape(t)|
    ensures EndsWithCR(Escape(t)) <==> EndsWithCR(t)
    decreases |t|
  {
    if t != "" {
      EscapeIsOneLine(t[1..]);
    }
  }

  /** Reading back an escaped text unescapes as much as reading the text itself would: escaping is not undone
      one for one. */
  lemma {:induction false} UnescapeEscape(t: string)
    ensures Unescape(Escape(t)) == Unescape(t)
    decreases |t|
  {
    if |t| >= 2 {
      UnescapeEscape(t[1..]);
      UnescapeEscape(t[2..]);
      var e := Escape(t);
      var e1 := Escape(t[1..]);
      assert Escape(t[1..]) == (if t[1] == '\n' then "\\n" else [t[1]]) + Escape(t[2..]) by {
        assert t[1..][1..] == t[2..];
      }
      if t[0] == '\n' {
        assert e == "\\n" + e1 && e[2..] == e1;
      } else {
        assert e == [t[0]] + e1 && e[1..] == e1;
        if t[0] == '\\' && t[1] == 'n' {
          assert e[2..] == Escape(t[2..]);
        }
      }
    } else if |t| == 1 {
      assert t[1..] == "";
      assert "\\n"[2..] == "";
    }
  }

  lemma {:induction false} UnescapeIsIdentity(t: string)
    ensures |Unescape(t)| <= |t|
    ensures Unescape(t) == t <==> !HasEscape(t)
    decreases |t|
  {
    if |t| >= 2 {
      if t[0] == '\\' && t[1] == 'n' {
        UnescapeIsIdentity(t[2..]);
      } else {
        UnescapeIsIdentity(t[1..]);
        assert [t[0]] + t[1..] == t;
        if Unescape(t) == t {
          assert Unescape(t[1..]) == t[1..];
        }
        if HasEscape(t) {
          var k :| 0 < k < |t| && t[k - 1] == '\\' && t[k] == 'n';
          assert t[1..][k - 2] == '\\' && t[1..][k - 1] == 'n';
        }
        if HasEscape(t[1..]) {
          var k :| 0 < k < |t[1..]| && t[1..][k - 1] == '\\' && t[1..][k] == 'n';
          assert t[k] == '\\' && t[k + 1] == 'n';
        }
      }
    }
  }

  /** The stored form is one line, so it is read back whole or refused for its length. */
  lemma RereadFlattened(t: string)
    ensures Flattened(t) == Escape(t) + "\n"
    ensures Reread(Flattened(t)) ==
            if |Escape(t)| >= 65536 then Err("token too long")
            else if t != "" && t[|t| - 1] == '\r' then Ok(Unescape(Escape(t)[..|Escape(t)| - 1]))
            else Ok(Unescape(Escape(t)))
  {
    EscapeIsOneLine(t);
    var content := Flattened(t);
    assert content[|Escape(t)|] == '\n';
    assert LineEnd(content) == |Escape(t)|;
    assert content[..|Escape(t)|] == Escape(t);
    if |Escape(t)| < MAX_TOKEN {
      assert content[|Escape(t)| + 1..] == "";
      assert LastLine(content, "") == LastLine("", DropCR(Escape(t)));
    }
  }

  /** Write, then read: the text comes back if and only if its line fits the scanner, it does not end in a
      carriage return and it holds no backslash directly followed by an `n`. */
  lemma RoundTrip(t: string)
    ensures Reread(Flattened(t)) == Ok(t) <==>
              && |Escape(t)| < 65536 && (t != "" ==> t[|t| - 1] != '\r')
              && forall k :: 0 < k < |t| ==> !(t[k - 1] == '\\' && t[k] == 'n')
  {
    RereadFlattened(t);
    EscapeIsOneLine(t);
    if EndsWithCR(t) {
      DropLastEscaped(t);
      UnescapeEscape(t[..|t| - 1]);
      UnescapeIsIdentity(t[..|t| - 1]);
    } else {
      UnescapeEscape(t);
      UnescapeIsIdentity(t);
    }
  }

  lemma {:induction false} DropLastEscaped(t: string)
    requires EndsWithCR(t)
    ensures DropCR(Escape(t)) == Escape(t[..|t| - 1])
    decreases |t|
  {
    EscapeIsOneLine(t);
    if |t| == 1 {
      assert t[1..] == "";
      assert Escape(t) == "\r";
    } else {
      DropLastEscaped(t[1..]);
      EscapeIsOneLine(t[1..]);
      assert t[1..][..|t| - 2] == t[..|t| - 1][1..];
    }
  }

  // ----- files of several lines

  /** 65536 characters without a newline, from position a on. */
  predicate LongRun(t: string, a: nat) {
    a + 65536 <= |t| && forall k :: a <= k < a + 65536 ==> t[k] != '\n'
  }

  ghost predicate Scannable(t: string) {
    forall a: nat :: !LongRun(t, a)
  }

  lemma ScannableAfterLine(t: string, k: nat)
    requires k < |t| && k < 65536 && t[k] == '\n'
    ensures Scannable(t) <==> Scannable(t[k + 1..])
  {
    var rest := t[k + 1..];
    forall a: nat | LongRun(t, a)
      ensures a > k && LongRun(rest, a - k - 1)
    {
    }
    forall a: nat | LongRun(rest, a)
      ensures LongRun(t, a + k + 1)
    {
      forall j | a + k + 1 <= j < a + k + 1 + 65536
        ensures t[j] != '\n'
      {
        assert t[j] == rest[j - k - 1];
      }
    }
  }

  /** The scanner gives up exactly on files with a run of 65536 characters without a newline, wherever it is. */
  lemma {:induction false} TooLongExactly(rest: string, line: string)
    ensures LastLine(rest, line).Ok? <==> Scannable(rest)
    decreases |rest|
  {
    if rest != "" {
      var k := LineEnd(rest);
      if k >= 65536 {
        assert LongRun(rest, 0);
      } else if k < |rest| {
        ScannableAfterLine(rest, k);
        TooLongExactly(rest[k + 1..], DropCR(rest[..k]));
      }
    }
  }

  /** Of a file that can be scanned the last line is read, with or without its newline, and without a carriage
      return at its end. */
  lemma {:induction false} LastLineExactly(front: string, last: string, end: string, line: string)
    requires front == "" || front[|front| - 1] == '\n'
    requires '\n' !in last && (end == "\n" || (end == "" && last != ""))
    requires Scannable(front + last + end)
    ensures LastLine(front + last + end, line) ==
            Ok(if last != "" && last[|last| - 1] == '\r' then last[..|last| - 1] else last)
    decreases |front|
  {
    var content := front + last + end;
    TooLongExactly(content, line);
    if front == "" {
      assert content == last + end;
      OneLine(last, end, line);
    } else {
      var k := LineEnd(content);
      assert content[|front| - 1] == '\n' && k < |front|;
      assert content[k + 1..] == front[k + 1..] + last + end;
      ScannableAfterLine(content, k);
      LastLineExactly(front[k + 1..], last, end, DropCR(content[..k]));
    }
  }

  lemma OneLine(last: string, end: string, line: string)
    requires '\n' !in last && (end == "\n" || (end == "" && last != ""))
    requires LastLine(last + end, line).Ok?
    ensures LastLine(last + end, line) == Ok(DropCR(last))
  {
    var content := last + end;
    assert LineEnd(content) == |last| by {
      assert forall j :: 0 <= j < |last| ==> content[j] == last[j];
    }
    assert content[..|last|] == last;
    if end == "\n" {
      assert content[|last| + 1..] == "";
      assert LastLine(content, line) == LastLine("", DropCR(last));
    } else {
      assert content == last;
    }
  }

  // ----- checkpoints in the file

  /** The foreign text form of a checkpoint. */
  datatype Codec = Codec(marshal: Checkpoint -> string, unmarshal: string -> Option<Checkpoint>)

  /** The codec inverts itself on `c`, and the text is one the file can carry. */
  predicate Storable(codec: Codec, c: Checkpoint) {
    var t := codec.marshal(c);
    && codec.unmarshal(t) == Some(c)
    && |Escape(t)| < MAX_TOKEN && !EndsWithCR(t) && !HasEscape(t)
  }

  /** What a check that starts now finds in a file with this content; None is a missing file. */
  function Interpret(codec: Codec, content: Option<string>): Stored {
    if content.None? || content.value == "" then Empty
    else match Reread(content.value)
      case Err(_) => Torn
      case Ok(t) => match codec.unmarshal(t)
        case None => Torn
        case Some(c) => Saved(c)
  }

  lemma WrittenIsSaved(codec: Codec, c: Checkpoint)
    requires Storable(codec, c)
    ensures Interpret(codec, Some(Flattened(codec.marshal(c)))) == Saved(c)
  {
    RoundTrip(codec.marshal(c));
  }

  /** How a write of the file ends. It opens with truncation, so one that breaks later, be it by an error or by
      the end of the process, leaves a prefix behind. */
  datatype WriteResult = Unopened | Broken(written: nat) | Complete

  /** The first `written` bytes of a text, or all of it. */
  function Cut(text: string, written: nat): string {
    if written < |text| then text[..written] else text
  }

  /** What the file holds after a write of `text` that ended like this. */
  function AfterWrite(content: Option<string>, text: string, result: WriteResult): Option<string> {
    match result
    case Unopened => content
    case Broken(written) => Some(Cut(text, written))
    case Complete => Some(text)
  }

  /** A write that broke off: nothing is an empty file, everything but the newline is as good as complete, and
      anything in between is read as a shorter text. */
  lemma BrokenWriteReadsAs(codec: Codec, c: Checkpoint, written: nat)
    requires Storable(codec, c)
    ensures var line := Escape(codec.marshal(c));
            Interpret(codec, Some(Cut(Flattened(codec.marshal(c)), written))) ==
            if written == 0 then Empty
            else if written >= |line| then Saved(c)
            else match codec.unmarshal(Unescape(DropCR(line[..written])))
              case None => Torn
              case Some(d) => Saved(d)
  {
    var line := Escape(codec.marshal(c));
    var text := Cut(Flattened(codec.marshal(c)), written);
    EscapeIsOneLine(codec.marshal(c));
    if written > |line| {
      WrittenIsSaved(codec, c);
    } else if written > 0 {
      assert text == line[..written];
      assert LineEnd(text) == |text|;
      assert LastLine(text, "") == Ok(DropCR(text));
      if written == |line| {
        WrittenIsSaved(codec, c);
        RereadFlattened(codec.marshal(c));
        assert line[..written] == line;
      }
    }
  }

  /** The file as the next check sees it after a write of a checkpoint: the whole one, or a broken one. */
  datatype Disk = Disk(whole: Checkpoint -> Stored, part: (Checkpoint, nat) -> Stored)

  function DiskOf(codec: Codec): Disk {
    Disk(c => Interpret(codec, Some(Flattened(codec.marshal(c)))),
         (c, written: nat) => Interpret(codec, Some(Cut(Flattened(codec.marshal(c)), written))))
  }

  predicate UnreadableOr(stored: Stored, c: Checkpoint) {
    stored == Torn || stored == Saved(c)
  }

  /** The file can carry `c`, and no broken write of it passes for another checkpoint. */
  ghost predicate Framed(disk: Disk, c: Checkpoint) {
    && disk.whole(c) == Saved(c) && disk.part(c, 0) == Empty
    && forall written: nat :: written > 0 ==> UnreadableOr(disk.part(c, written), c)
  }

  /** The first `n` characters of the stored line parse to nothing or to `c` itself. */
  predicate PrefixHarmless(codec: Codec, c: Checkpoint, n: nat)
    requires n <= |Escape(codec.marshal(c))|
  {
    var parsed := codec.unmarshal(Unescape(DropCR(Escape(codec.marshal(c))[..n])));
    parsed == None || parsed == Some(c)
  }

  lemma PartExactly(codec: Codec, c: Checkpoint, written: nat)
    requires Storable(codec, c) && written > 0
    ensures UnreadableOr(DiskOf(codec).part(c, written), c) <==>
            (written < |Escape(codec.marshal(c))| ==> PrefixHarmless(codec, c, written))
  {
    BrokenWriteReadsAs(codec, c, written);
  }

  /** On a real file that is so exactly when every proper prefix of the stored line is harmless. */
  lemma FramedExactly(codec: Codec, c: Checkpoint)
    requires Storable(codec, c)
    ensures Framed(DiskOf(codec), c) <==>
            forall n: nat :: 0 < n < |Escape(codec.marshal(c))| ==> PrefixHarmless(codec, c, n)
  {
    WrittenIsSaved(codec, c);
    BrokenWriteReadsAs(codec, c, 0);
    forall written: nat | written > 0
      ensures UnreadableOr(DiskOf(codec).part(c, written), c) <==>
              (written < |Escape(codec.marshal(c))| ==> PrefixHarmless(codec, c, written))
    {
      PartExactly(codec, c, written);
    }
  }

  /** Never for an empty log; otherwise when nothing is stored, or the size (in v2 also the origin) changed. */
  predicate ShouldWrite(version: Version, cur: Checkpoint, prev: Option<Checkpoint>) {
    cur.size != 0
    && (prev.None? || prev.value.size != cur.size || (version == V2 && prev.value.origin != cur.origin))
  }

  class LogInfoFile {
    var content: Option<string>

    method ReadLastCheckpoint() returns (r: Result<string>)
      ensures r == if content.None? then Err("no such file") else Reread(content.value)
    {
      if content.None? {
        return Err("no such file");
      }
      var rest, line := content.value, "";
      while rest != ""
        invariant LastLine(rest, line) == LastLine(content.value, "")
        decreases |rest|
      {
        var k := LineEnd(rest);
        if k >= MAX_TOKEN {
          return Err("token too long");
        }
        line := DropCR(rest[..k]);
        assert k == |rest| ==> rest[..k] == rest;
        rest := if k == |rest| then "" else rest[k + 1..];
      }
      return Ok(Unescape(line));
    }

    /** The stat call and the read that open every check. A stat call that fails, for a missing file or otherwise,
        means that nothing is stored. */
    method Load(codec: Codec, seen: bool) returns (stored: Stored)
      ensures stored == Seen(Interpret(codec, content), seen)
      ensures stored.Empty? <==> !seen || content == None || content == Some("")
      ensures forall c :: stored == Saved(c) <==>
                          && seen && content.Some? && content.value != "" && Reread(content.value).Ok?
                          && codec.unmarshal(Reread(content.value).value) == Some(c)
    {
      if !seen || content.None? || content.value == "" {
        return Empty;
      }
      var text := ReadLastCheckpoint();
      if text.Err? {
        return Torn;
      }
      var checkpoint := codec.unmarshal(text.value);
      stored := if checkpoint.None? then Torn else Saved(checkpoint.value);
    }

    method WriteCheckpointBytes(text: string, result: WriteResult) returns (ok: bool)
      modifies this
      ensures ok <==> result.Complete?
      ensures content == AfterWrite(old(content), Flattened(text), result)
      ensures result.Unopened? ==> content == old(content)
      ensures result.Complete? ==> content == Some(Escape(text) + "\n")
      ensures result.Broken? ==>
                && content.Some? && content.value <= Escape(text) + "\n"
                && |content.value| == if result.written <= |Escape(text)| then result.written else |Escape(text)| + 1
    {
      var flattened := Escape(text) + "\n";
      match result
      case Unopened =>
        ok := false;
      case Broken(written) =>
        content := Some(Cut(flattened, written));
        ok := false;
      case Complete =>
        content := Some(flattened);
        ok := true;
    }

    /** WriteCheckpointRekorV1 and WriteCheckpointRekorV2; `result` is how the write ends if there is one. */
    method WriteCheckpoint(version: Version, codec: Codec, cur: Checkpoint, prev: Option<Checkpoint>,
            force: bool, result: WriteResult)
      returns (ok: bool)
      modifies this
      ensures var due := cur.size > 0 && (force || prev.None? || prev.value.size != cur.size
                                          || (version == V2 && prev.value.origin != cur.origin));
              && (!due ==> ok && content == old(content))
              && (due ==>
                    && (ok <==> result.Complete?)
                    && content == AfterWrite(old(content), Flattened(codec.marshal(cur)), result)
                    && (ok ==> content == Some(Escape(codec.marshal(cur)) + "\n")))
      ensures !force ==> (ShouldWrite(version, cur, prev) <==>
                            cur.size > 0 && (prev.None? || prev.value.size != cur.size
                                             || (version == V2 && prev.value.origin != cur.origin)))
    {
      if cur.size == 0 {
        return true;
      }
      if force || prev.None? || (version == V2 && prev.value.origin != cur.origin) || prev.value.size != cur.size {
        ok := WriteCheckpointBytes(codec.marshal(cur), result);
        return;
      }
      return true;
    }
  }
}
