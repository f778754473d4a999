/** The event buffer of net/buffer.c: a window over an allocation that behaves as a queue of
    bytes. */
module EvBuffer {
  import opened Octets

  const CR: Byte := 13
  const LF: Byte := 10

  datatype Line = NoLine | Line(text: seq<Byte>)

  /** 256 doubled any number of times. */
  predicate IsSize(n: nat) {
    n == 256 || (n > 256 && n % 2 == 0 && IsSize(n / 2))
  }

  lemma DoubledSize(n: nat)
    requires IsSize(n)
    ensures IsSize(2 * n) && n >= 256
  {
    assert 2 * n / 2 == n;
  }

  class EvBuffer {
    var orig_buffer: array?<Byte>
    var buffer: nat                // the pointer, counted from orig_buffer
    var misalign: nat
    var totallen: nat
    var off: nat

    ghost predicate Valid()
      reads this
    {
      && buffer == misalign && misalign + off <= totallen
      && (if orig_buffer == null then totallen == 0 else orig_buffer.Length == totallen && IsSize(totallen))
    }

    /** The bytes in the queue. */
    ghost function Content(): (c: seq<Byte>)
      requires Valid()
      reads this, orig_buffer
      ensures |c| == off
    {
      if orig_buffer == null then [] else orig_buffer[misalign..misalign + off]
    }

    /** evbuffer_new */
    constructor ()
      ensures Valid() && Content() == [] && orig_buffer == null
    {
      orig_buffer, buffer, misalign, totallen, off := null, 0, 0, 0, 0;
    }

    /** evbuffer_align: memmove to the front of the allocation. */
    method Align()
      requires Valid() && orig_buffer != null
      modifies this`buffer, this`misalign, orig_buffer
      ensures Valid() && misalign == 0 && Content() == old(Content())
    {
      ghost var c := Content();
      forall i | 0 <= i < off {
        orig_buffer[i] := orig_buffer[buffer + i];
      }
      buffer := 0;
      misalign := 0;
      assert orig_buffer[..off] == c;
    }

    /** The loop of evbuffer_expand over the size. */
    static method Enlarged(totallen: nat, need: nat) returns (length: nat)
      requires totallen < need && (totallen == 0 || IsSize(totallen))
      ensures need <= length && totallen < length && IsSize(length)
      ensures length == 256 || length < 2 * need
    {
      length := totallen;
      if length < 256 {
        length := 256;
      }
      while length < need
        invariant IsSize(length) && totallen <= length
        invariant length == 256 || length < 2 * need
        decreases need - length
      {
        DoubledSize(length);
        length := length * 2;
      }
      if length == totallen { assert false; }
    }

    /** evbuffer_expand: room for datlen more bytes. */
    method Expand(datlen: nat)
      requires Valid()
      modifies this`orig_buffer, this`buffer, this`misalign, this`totallen, orig_buffer
      ensures Valid() && Content() == old(Content()) && misalign + off + datlen <= totallen
      ensures orig_buffer == old(orig_buffer) || fresh(orig_buffer)
      ensures orig_buffer != null || datlen == 0
      ensures totallen == old(totallen) || totallen == 256 || totallen < 2 * (old(misalign) + off + datlen)
    {
      var need := misalign + off + datlen;
      if totallen >= need {
        return;
      }
      if misalign >= datlen {
        Align();
      } else {
        var length := Enlarged(totallen, need);
        if buffer != 0 {
          Align();
        }
        Realloc(length);
      }
    }

    /** realloc: a new allocation with the old bytes at its front. */
    method Realloc(length: nat)
      requires Valid() && misalign == 0 && totallen < length && IsSize(length)
      modifies this`orig_buffer, this`buffer, this`misalign, this`totallen
      ensures Valid() && fresh(orig_buffer) && misalign == 0 && totallen == length && Content() == old(Content())
    {
      ghost var c := Content();
      var newbuf := new Byte[length](_ => 0);
      if orig_buffer != null {
        forall i | 0 <= i < totallen {
          newbuf[i] := orig_buffer[i];
        }
      }
      orig_buffer, buffer := newbuf, 0;
      totallen := length;
      assert orig_buffer[..off] == c;
    }

    /** evbuffer_add appends. */
    method Add(data: seq<Byte>)
      requires Valid()
      modifies this, orig_buffer
      ensures Valid() && Content() == old(Content()) + data
      ensures totallen == old(totallen) || totallen == 256 || totallen < 2 * old(misalign + off + |data|)
      ensures orig_buffer == old(orig_buffer) || fresh(orig_buffer)
    {
      var need := misalign + off + |data|;
      if totallen < need {
        Expand(|data|);
      }
      Append(data);
    }

    method Append(data: seq<Byte>)
      requires Valid() && misalign + off + |data| <= totallen
      modifies this`off, orig_buffer
      ensures Valid() && Content() == old(Content()) + data
    {
      ghost var c := Content();
      if orig_buffer != null {
        CopyIn(data);
      }
      off := off + |data|;
      if orig_buffer != null { Joint(orig_buffer[..], misalign, misalign + |c|, misalign + off); }
    }

    static lemma Joint(s: seq<Byte>, i: nat, j: nat, k: nat)
      requires i <= j <= k <= |s|
      ensures s[i..k] == s[i..j] + s[j..k]
    {
    }

    /** memcpy behind the last byte. */
    method CopyIn(data: seq<Byte>)
      requires Valid() && orig_buffer != null && misalign + off + |data| <= totallen
      modifies orig_buffer
      ensures orig_buffer[misalign..misalign + off] == old(orig_buffer[misalign..misalign + off])
      ensures orig_buffer[misalign + off..misalign + off + |data|] == data
    {
      forall i | 0 <= i < |data| {
        orig_buffer[buffer + off + i] := data[i];
      }
    }

    /** evbuffer_drain drops the first bytes. */
    method Drain(len: nat)
      requires Valid()
      modifies this`buffer, this`misalign, this`off
      ensures Valid() && Content() == old(Content())[if len < old(off) then len else old(off)..]
    {
      if len >= off {
        off := 0;
        buffer := 0;
        misalign := 0;
        return;
      }
      buffer := buffer + len;
      misalign := misalign + len;
      off := off - len;
    }

    /** evbuffer_remove takes the first bytes out. */
    method Remove(datlen: nat) returns (data: seq<Byte>)
      requires Valid()
      modifies this`buffer, this`misalign, this`off
      ensures Valid() && data + Content() == old(Content())
      ensures |data| == if datlen < old(off) then datlen else old(off)
    {
      var nread := datlen;
      if nread >= off {
        nread := off;
      }
      data := FirstBytes(nread);
      Halved(Content(), nread);
      Drain(nread);
    }

    method FirstBytes(n: nat) returns (data: seq<Byte>)
      requires Valid() && n <= off
      ensures data == Content()[..n]
    {
      data := [];
      if n > 0 {
        Slices(orig_buffer[..], misalign, off, n);
        data := orig_buffer[buffer..buffer + n];
      }
    }

    static lemma Slices(s: seq<Byte>, a: nat, len: nat, n: nat)
      requires n <= len && a + len <= |s|
      ensures s[a..a + len][..n] == s[a..a + n]
    {
    }

    static lemma Halved(s: seq<Byte>, n: nat)
      requires n <= |s|
      ensures s[..n] + s[n..] == s
    {
    }

    /** evbuffer_add_buffer moves everything, by exchanging the buffers if this one is empty. */
    method AddBuffer(inbuf: EvBuffer)
      requires Valid() && inbuf.Valid() && inbuf != this && (orig_buffer == null || inbuf.orig_buffer != orig_buffer)
      modifies this, inbuf, orig_buffer
      ensures Valid() && inbuf.Valid()
      ensures Content() == old(Content()) + old(inbuf.Content()) && inbuf.Content() == []
      ensures orig_buffer == null || inbuf.orig_buffer != orig_buffer
    {
      if off == 0 {
        ghost var c := inbuf.Content();
        orig_buffer, inbuf.orig_buffer := inbuf.orig_buffer, orig_buffer;
        buffer, inbuf.buffer := inbuf.buffer, buffer;
        misalign, inbuf.misalign := inbuf.misalign, misalign;
        totallen, inbuf.totallen := inbuf.totallen, totallen;
        off, inbuf.off := inbuf.off, off;
        return;
      }
      var data := if inbuf.orig_buffer == null then [] else inbuf.orig_buffer[inbuf.buffer..inbuf.buffer + inbuf.off];
      assert data == inbuf.Content();
      Add(data);
      inbuf.Drain(inbuf.off);
    }

    /** The loop of evbuffer_readline. */
    method FindEnd() returns (i: nat)
      requires Valid()
      ensures i == LineEnd(Content())
    {
      i := 0;
      while i < off
        invariant i <= off && i <= LineEnd(Content())
      {
        LineEndAt(Content(), i);
        assert Content()[i] == orig_buffer[buffer + i];
        if orig_buffer[buffer + i] == CR || orig_buffer[buffer + i] == LF {
          return;
        }
        i := i + 1;
      }
    }

    /** evbuffer_readline */
    method ReadLine() returns (line: Line)
      requires Valid()
      modifies this`buffer, this`misalign, this`off
      ensures Valid()
      ensures line == FirstLine(old(Content())) && Content() == AfterLine(old(Content()))
      ensures line == NoLine ==> Content() == old(Content()) && Plain(old(Content()))
      ensures line.Line? ==> Plain(line.text)
      ensures line.Line? ==>
        exists t :: old(Content()) == line.text + t + Content() && LongestTerminator(t, Content())
    {
      LineSplits(Content());
      var i := FindEnd();
      if i == off {
        return NoLine;
      }
      var text := FirstBytes(i);
      var n := EndLength(i);
      Drain(i + n);
      line := Line(text);
    }

    /** The terminator is one byte, or one more if that is the other one of CR and LF. */
    method EndLength(i: nat) returns (n: nat)
      requires Valid() && i == LineEnd(Content()) && i < off
      ensures i + n <= off && Content()[i + n..] == AfterLine(Content())
    {
      n := 1;
      if i < off - 1 {
        var fch, sch := orig_buffer[buffer + i], orig_buffer[buffer + i + 1];
        assert fch == Content()[i] && sch == Content()[i + 1];
        if (sch == CR || sch == LF) && sch != fch {
          n := n + 1;
        }
      }
    }
  }

  // ---- lines ----

  predicate IsEnd(b: Byte) {
    b == CR || b == LF
  }

  /** The number of bytes before the first CR or LF. */
  function LineEnd(s: seq<Byte>): (n: nat)
    ensures n <= |s|
  {
    if s == [] || IsEnd(s[0]) then 0 else 1 + LineEnd(s[1..])
  }

  lemma {:induction false} LineEndAt(s: seq<Byte>, i: nat)
    requires i <= LineEnd(s)
    ensures i < |s| && !IsEnd(s[i]) ==> i < LineEnd(s)
    ensures i < |s| && IsEnd(s[i]) ==> i == LineEnd(s)
    ensures i == |s| ==> i == LineEnd(s)
  {
    if i > 0 { LineEndAt(s[1..], i - 1); }
  }

  function FirstLine(s: seq<Byte>): Line {
    if LineEnd(s) == |s| then NoLine else Line(s[..LineEnd(s)])
  }

  /** The terminator is one byte, or two different ones. */
  function AfterLine(s: seq<Byte>): seq<Byte> {
    var i := LineEnd(s);
    if i == |s| then s
    else if i + 1 < |s| && IsEnd(s[i + 1]) && s[i + 1] != s[i] then s[i + 2..]
    else s[i + 1..]
  }

  lemma {:induction false} BeforeEndPlain(s: seq<Byte>)
    ensures Plain(s[..LineEnd(s)]) && (LineEnd(s) < |s| ==> IsEnd(s[LineEnd(s)]))
  {
    if s != [] && !IsEnd(s[0]) {
      BeforeEndPlain(s[1..]);
      var n := LineEnd(s);
      forall i | 0 <= i < n ensures !IsEnd(s[..n][i]) {
        if i > 0 { assert s[..n][i] == s[1..][..n - 1][i - 1]; }
      }
    }
  }

  /** A buffer without a terminator holds no line and stays as it is; any other is a plain
      line, the longest terminator that stands there, and the rest. */
  lemma LineSplits(s: seq<Byte>)
    ensures FirstLine(s) == NoLine ==> AfterLine(s) == s && Plain(s)
    ensures FirstLine(s).Line? ==> Plain(FirstLine(s).text)
    ensures FirstLine(s).Line? ==>
      exists t :: s == FirstLine(s).text + t + AfterLine(s) && LongestTerminator(t, AfterLine(s))
  {
    BeforeEndPlain(s);
    var i := LineEnd(s);
    if i == |s| {
      assert s[..i] == s;
    } else {
      var t := EndAt(s, i);
      assert FirstLine(s).text == s[..i];
    }
  }

  /** The terminator that begins with the end byte at i. */
  lemma EndAt(s: seq<Byte>, i: nat) returns (t: seq<Byte>)
    requires i == LineEnd(s) < |s| && IsEnd(s[i])
    ensures s == s[..i] + t + AfterLine(s) && LongestTerminator(t, AfterLine(s))
  {
    if i + 1 < |s| && IsEnd(s[i + 1]) && s[i + 1] != s[i] {
      t := [s[i], s[i + 1]];
    } else {
      t := [s[i]];
    }
    assert t + AfterLine(s) == s[i..];
    Rejoined(s, i, t, AfterLine(s));
    forall u | IsTerminator(u) && u <= s[i..] ensures |u| <= |t| {
      if |u| == 2 { assert u[0] == s[i..][0] && u[1] == s[i..][1]; }
    }
  }

  lemma Rejoined(s: seq<Byte>, i: nat, t: seq<Byte>, rest: seq<Byte>)
    requires i <= |s| && t + rest == s[i..]
    ensures s == s[..i] + t + rest
  {
    assert s[..i] + t + rest == s[..i] + (t + rest);
  }

  predicate IsTerminator(t: seq<Byte>) {
    t in [[LF], [CR], [CR, LF], [LF, CR]]
  }

  /** No longer terminator begins where t does. */
  ghost predicate LongestTerminator(t: seq<Byte>, rest: seq<Byte>) {
    IsTerminator(t) && forall u :: IsTerminator(u) && u <= t + rest ==> |u| <= |t|
  }

  predicate Plain(line: seq<Byte>) {
    forall i {:trigger line[i]} :: 0 <= i < |line| ==> !IsEnd(line[i])
  }

  /** Every line with the terminator behind it. */
  function Joined(lines: seq<seq<Byte>>, t: seq<Byte>): seq<Byte> {
    if lines == [] then [] else lines[0] + t + Joined(lines[1..], t)
  }

  lemma {:induction false} LineEndPlain(line: seq<Byte>, rest: seq<Byte>)
    requires Plain(line) && rest != [] && IsEnd(rest[0])
    ensures LineEnd(line + rest) == |line|
  {
    if line == [] {
      assert line + rest == rest;
    } else {
      assert (line + rest)[1..] == line[1..] + rest;
      LineEndPlain(line[1..], rest);
    }
  }

  /** What follows a terminator cannot be mistaken for a part of it. */
  lemma NextStarts(lines: seq<seq<Byte>>, t: seq<Byte>)
    requires IsTerminator(t) && AllPlain(lines)
    ensures var s := Joined(lines, t); s == [] || !IsEnd(s[0]) || s[0] == t[0]
  {
  }

  predicate AllPlain(lines: seq<seq<Byte>>) {
    forall i {:trigger lines[i]} :: 0 <= i < |lines| ==> Plain(lines[i])
  }

  lemma ReadFirst(lines: seq<seq<Byte>>, t: seq<Byte>)
    requires IsTerminator(t) && lines != [] && AllPlain(lines)
    ensures FirstLine(Joined(lines, t)) == Line(lines[0])
    ensures AfterLine(Joined(lines, t)) == Joined(lines[1..], t)
  {
    NextStarts(lines[1..], t);
    JoinedFirst(lines[0], t, Joined(lines[1..], t));
    ReadOne(lines[0], t, Joined(lines[1..], t));
  }

  lemma JoinedFirst(a: seq<Byte>, b: seq<Byte>, c: seq<Byte>)
    ensures a + b + c == a + (b + c)
  {
  }

  lemma ReadOne(line: seq<Byte>, t: seq<Byte>, r: seq<Byte>)
    requires IsTerminator(t) && Plain(line) && (r == [] || !IsEnd(r[0]) || r[0] == t[0])
    ensures FirstLine(line + (t + r)) == Line(line) && AfterLine(line + (t + r)) == r
  {
    LineEndPlain(line, t + r);
    AfterBytes(line, t, r);
    var s, n := line + (t + r), |line|;
    assert s[n] == t[0];
    if |t| == 2 {
      assert s[n + 1] == t[1];
    } else if r != [] {
      assert s[n + 1] == r[0];
    }
  }

  lemma AfterBytes(line: seq<Byte>, t: seq<Byte>, r: seq<Byte>)
    ensures (line + (t + r))[..|line|] == line && (line + (t + r))[|line| + |t|..] == r
  {
  }

  /** Lines that are added with one kind of terminator are read back one by one, and then
      there is no line and no byte left. */
  method RoundTrip(buf: EvBuffer, lines: seq<seq<Byte>>, t: seq<Byte>) returns (got: seq<seq<Byte>>, last: Line)
    requires buf.Valid() && buf.Content() == [] && IsTerminator(t) && AllPlain(lines)
    modifies buf, buf.orig_buffer
    ensures buf.Valid() && got == lines && last == NoLine && buf.Content() == []
  {
    AddLines(buf, lines, t);
    got := ReadLines(buf, lines, t);
    last := buf.ReadLine();
  }

  method ReadLines(buf: EvBuffer, ghost lines: seq<seq<Byte>>, t: seq<Byte>) returns (got: seq<seq<Byte>>)
    requires buf.Valid() && buf.Content() == Joined(lines, t) && IsTerminator(t) && AllPlain(lines)
    modifies buf`buffer, buf`misalign, buf`off
    ensures buf.Valid() && got == lines && buf.Content() == []
  {
    got := [];
    ghost var rest := lines;
    while buf.off > 0
      invariant buf.Valid() && lines == got + rest && AllPlain(rest) && buf.Content() == Joined(rest, t)
      decreases buf.off
    {
      JoinedShorter(rest, t);
      ReadFirst(rest, t);
      var line := buf.ReadLine();
      Moved(got, rest);
      got, rest := got + [line.text], rest[1..];
    }
    JoinedNothing(rest, t);
  }

  lemma Moved(a: seq<seq<Byte>>, b: seq<seq<Byte>>)
    requires b != []
    ensures a + b == (a + [b[0]]) + b[1..]
  {
  }

  lemma JoinedShorter(lines: seq<seq<Byte>>, t: seq<Byte>)
    requires IsTerminator(t) && Joined(lines, t) != []
    ensures lines != [] && |Joined(lines[1..], t)| < |Joined(lines, t)|
  {
  }

  lemma JoinedNothing(lines: seq<seq<Byte>>, t: seq<Byte>)
    requires IsTerminator(t) && Joined(lines, t) == []
    ensures lines == []
  {
  }

  method AddLines(buf: EvBuffer, lines: seq<seq<Byte>>, t: seq<Byte>)
    requires buf.Valid() && buf.Content() == []
    modifies buf, buf.orig_buffer
    ensures buf.Valid() && buf.Content() == Joined(lines, t)
    ensures buf.orig_buffer == old(buf.orig_buffer) || fresh(buf.orig_buffer)
  {
    for i := 0 to |lines|
      invariant buf.Valid() && buf.Content() == Joined(lines[..i], t)
      invariant buf.orig_buffer == old(buf.orig_buffer) || fresh(buf.orig_buffer)
    {
      JoinedMore(lines[..i], lines[i], t);
      assert lines[..i + 1] == lines[..i] + [lines[i]];
      buf.Add(lines[i]);
      buf.Add(t);
    }
    assert lines[..|lines|] == lines;
  }

  lemma {:induction false} JoinedMore(lines: seq<seq<Byte>>, line: seq<Byte>, t: seq<Byte>)
    ensures Joined(lines + [line], t) == Joined(lines, t) + line + t
  {
    if lines == [] {
      assert lines + [line] == [line] && [line][1..] == [];
    } else {
      assert (lines + [line])[1..] == lines[1..] + [line];
      JoinedMore(lines[1..], line, t);
    }
  }
}
