/** A terminal (kernel/tty.c): the ring buffer between `put_key` and `tty_dev_write`, and the editing of the
    line that a read request collects. */
module Tty {
  import opened BlockDevice
  import opened Words

  const TTY_IN_BYTES := 256
  const NEWLINE: byte := 0x0A
  const BACKSPACE: byte := 0x08

  predicate Printable(c: byte) { 0x20 <= c <= 0x7E }

  /** A request: how many characters are still wanted (0 when there is none), those in the user's buffer, and
      the lines handed over so far. */
  datatype Session = Session(left: nat, line: seq<byte>, lines: seq<seq<byte>>)

  /** The effect of a character on the request (kernel/tty.c:259-286). */
  function Edited(s: Session, c: byte): Session
    requires s.left > 0
  {
    if Printable(c) then s.(left := s.left - 1, line := s.line + [c])
    else if c == BACKSPACE && |s.line| > 0 then s.(left := s.left + 1, line := s.line[..|s.line| - 1])
    else s
  }

  function Fed(s: Session, c: byte): Session {
    if s.left == 0 then s
    else
      var t := Edited(s, c);
      if c == NEWLINE || t.left == 0 then t.(left := 0, lines := t.lines + [t.line]) else t
  }

  function FedAll(s: Session, keys: seq<byte>): Session
    decreases |keys|
  {
    if |keys| == 0 then s else FedAll(Fed(s, keys[0]), keys[1..])
  }

  /** The ring position `k` behind `tail`. */
  function Ring(tail: nat, k: nat): (r: nat)
    requires tail < TTY_IN_BYTES && k <= TTY_IN_BYTES
    ensures r < TTY_IN_BYTES
  {
    if tail + k < TTY_IN_BYTES then tail + k else tail + k - TTY_IN_BYTES
  }

  class Terminal {
    const inBuf: array<nat>
    /** The user's buffer, `tty_req_buf`. */
    var req: array<byte>
    var head: nat
    var tail: nat
    var count: nat
    var left: nat
    var trans: nat
    var lines: seq<seq<byte>>

    ghost predicate Valid()
      reads this
    {
      && inBuf.Length == TTY_IN_BYTES && head < TTY_IN_BYTES && tail < TTY_IN_BYTES && count <= TTY_IN_BYTES
      && head == Ring(tail, count) && trans + left <= req.Length && (req as object) != inBuf
    }

    /** The keys in the ring, oldest first. */
    ghost function Queue(): (q: seq<nat>)
      requires Valid()
      reads this, inBuf
      ensures |q| == count
    {
      seq(count, k requires 0 <= k < count reads this, inBuf requires Valid() => inBuf[Ring(tail, k)])
    }

    ghost function State(): Session
      requires Valid()
      reads this, req
    {
      Session(left, req[..trans], lines)
    }

    /** `init_tty`. */
    constructor ()
      ensures Valid() && Queue() == [] && State() == Session(0, [], []) && fresh(inBuf) && fresh(req)
    {
      inBuf := new nat[TTY_IN_BYTES];
      req := new byte[0];
      head, tail, count, left, trans, lines := 0, 0, 0, 0, 0, [];
    }

    /** `put_key` (kernel/tty.c:166-175): a key that finds the ring full is lost. */
    method PutKey(key: nat)
      requires Valid()
      modifies this`head, this`count, inBuf
      ensures Valid() && State() == old(State())
      ensures Queue() == if old(count) < 256 then old(Queue()) + [key] else old(Queue())
    {
      if count < TTY_IN_BYTES {
        ghost var q := Queue();
        inBuf[head] := key;
        head := head + 1;
        if head == TTY_IN_BYTES {
          head := 0;
        }
        count := count + 1;
        assert Queue() == q + [key];
      }
    }

    /** `tty_do_read` (kernel/tty.c:84-96). */
    method DoRead(buf: array<byte>, cnt: nat)
      requires Valid() && cnt <= buf.Length && (buf as object) != inBuf
      modifies this`req, this`left, this`trans
      ensures Valid() && Queue() == old(Queue()) && req == buf && State() == Session(cnt, [], old(lines))
    {
      req, left, trans := buf, cnt, 0;
    }

    /** One key from the ring (kernel/tty.c:252-256). */
    method NextKey() returns (c: byte)
      requires Valid() && count > 0
      modifies this`tail, this`count
      ensures Valid() && State() == old(State()) && Queue() == old(Queue())[1..] && c == CharOf(old(Queue())[0])
    {
      ghost var q := Queue();
      c := CharOf(inBuf[tail]);
      tail := tail + 1;
      if tail == TTY_IN_BYTES {
        tail := 0;
      }
      count := count - 1;
      assert Queue() == q[1..];
    }

    /** The character meets the request (kernel/tty.c:258-286). */
    method Edit(ch: byte)
      requires Valid()
      modifies this`left, this`trans, this`lines, req
      ensures Valid() && req == old(req) && Queue() == old(Queue()) && State() == Fed(old(State()), ch)
    {
      if left > 0 {
        if 0x20 <= ch <= 0x7E {
          ghost var line := req[..trans];
          req[trans] := ch;
          assert req[..trans + 1] == line + [ch];
          trans, left := trans + 1, left - 1;
        } else if ch == BACKSPACE && trans > 0 {
          assert req[..trans][..trans - 1] == req[..trans - 1];
          trans, left := trans - 1, left + 1;
        }
        if ch == NEWLINE || left == 0 {
          lines := lines + [req[..trans]];
          left := 0;
        }
      }
    }

    /** `tty_dev_write` (kernel/tty.c:249-289): the ring is emptied into the request. */
    method DevWrite()
      requires Valid()
      modifies this`tail, this`count, this`left, this`trans, this`lines, req
      ensures Valid() && req == old(req) && count == 0 && State() == FedAll(old(State()), Chars(old(Queue())))
    {
      while count > 0
        invariant Valid() && req == old(req)
        invariant FedAll(State(), Chars(Queue())) == FedAll(old(State()), Chars(old(Queue())))
        decreases count
      {
        ghost var q := Queue();
        var ch := NextKey();
        CharsNext(q);
        Edit(ch);
      }
    }
  }

  /** `char ch = key`: the low byte. */
  function CharOf(key: nat): byte { ValByte(key % 0x100) }

  function Chars(keys: seq<nat>): (r: seq<byte>)
    ensures |r| == |keys|
  {
    seq(|keys|, k requires 0 <= k < |keys| => CharOf(keys[k]))
  }

  lemma CharsNext(keys: seq<nat>)
    requires |keys| > 0
    ensures Chars(keys)[0] == CharOf(keys[0]) && Chars(keys)[1..] == Chars(keys[1..])
  {
  }

  // ---------------------------------------------------------------- what a request gets

  /** What is typed, with the backspaces applied. */
  function Typed(keys: seq<byte>): seq<byte> {
    if |keys| == 0 then []
    else
      var t, c := Typed(keys[..|keys| - 1]), keys[|keys| - 1];
      if Printable(c) then t + [c] else if c == BACKSPACE && |t| > 0 then t[..|t| - 1] else t
  }

  /** The request for `n` characters is answered by the last of these keys. */
  predicate Completes(n: nat, keys: seq<byte>) {
    |keys| > 0 && (keys[|keys| - 1] == NEWLINE || |Typed(keys)| == n)
  }

  /** No key before the last answers it. */
  predicate Pending(n: nat, keys: seq<byte>) { forall k :: 0 < k <= |keys| ==> !Completes(n, keys[..k]) }

  lemma {:induction false} FedLast(s: Session, keys: seq<byte>)
    requires |keys| > 0
    ensures FedAll(s, keys) == Fed(FedAll(s, keys[..|keys| - 1]), keys[|keys| - 1])
    decreases |keys|
  {
    if |keys| > 1 {
      FedLast(Fed(s, keys[0]), keys[1..]);
      assert keys[1..][..|keys| - 2] == keys[..|keys| - 1][1..];
    } else {
      assert keys[..0] == [];
    }
  }

  /** Until it is answered, a request has been given what was typed, and what it has and what it still wants
      add up to what it asked for. */
  lemma {:induction false} WhilePending(n: nat, keys: seq<byte>, lines: seq<seq<byte>>)
    requires n > 0 && Pending(n, keys)
    ensures var s := FedAll(Session(n, [], lines), keys);
      s.line == Typed(keys) && s.left + |s.line| == n && s.left > 0 && s.lines == lines
    decreases |keys|
  {
    if |keys| > 0 {
      var t := keys[..|keys| - 1];
      assert forall k :: 0 < k <= |t| ==> t[..k] == keys[..k];
      assert keys[..|keys|] == keys;
      WhilePending(n, t, lines);
      FedLast(Session(n, [], lines), keys);
    }
  }

  /** The key that answers it hands over what was typed, and nothing after it changes that. */
  lemma {:induction false} WhenAnswered(n: nat, keys: seq<byte>, more: seq<byte>, lines: seq<seq<byte>>)
    requires n > 0 && |keys| > 0 && Pending(n, keys[..|keys| - 1]) && Completes(n, keys)
    ensures FedAll(Session(n, [], lines), keys + more) == Session(0, Typed(keys), lines + [Typed(keys)])
    decreases |more|
  {
    if |more| == 0 {
      assert keys + more == keys;
      WhilePending(n, keys[..|keys| - 1], lines);
      FedLast(Session(n, [], lines), keys);
    } else {
      var m := more[..|more| - 1];
      WhenAnswered(n, keys, m, lines);
      assert (keys + more)[..|keys + more| - 1] == keys + m;
      FedLast(Session(n, [], lines), keys + more);
    }
  }

  // ---------------------------------------------------------------- in numbers

  /** The byte handed over has the value of the low byte of the key. */
  lemma CharValue(key: nat)
    ensures ByteVal(CharOf(key)) == key % 0x100
  {
    ByteRound(key % 0x100);
  }

  lemma PrintableValue(c: byte)
    ensures Printable(c) <==> 0x20 <= ByteVal(c) <= 0x7E
  {
  }

  lemma {:induction false} PrintableTyped(keys: seq<byte>)
    requires forall k :: 0 <= k < |keys| ==> Printable(keys[k])
    ensures Typed(keys) == keys
  {
    if |keys| > 0 {
      PrintableTyped(keys[..|keys| - 1]);
      assert keys == keys[..|keys| - 1] + [keys[|keys| - 1]];
    }
  }

  /** As many keys between space and tilde as were asked for come out as they were typed, in order, and answer the
      request. */
  lemma PlainKeys(keys: seq<nat>, lines: seq<seq<byte>>)
    requires |keys| > 0 && forall k :: 0 <= k < |keys| ==> 0x20 <= keys[k] <= 0x7E
    ensures var s := FedAll(Session(|keys|, [], lines), Chars(keys));
      && s.left == 0 && |s.lines| == |lines| + 1 && s.lines[..|lines|] == lines && |s.lines[|lines|]| == |keys|
      && forall k :: 0 <= k < |keys| ==> ByteVal(s.lines[|lines|][k]) == keys[k]
  {
    hide CharOf, ByteVal, Printable, FedAll;
    var cs := Chars(keys);
    forall k | 0 <= k < |keys| ensures Printable(cs[k]) && ByteVal(cs[k]) == keys[k] {
      CharValue(keys[k]);
      PrintableValue(cs[k]);
    }
    forall k | 0 < k <= |cs| ensures Typed(cs[..k]) == cs[..k] && cs[k - 1] != NEWLINE {
      PrintableTyped(cs[..k]);
      assert cs[k - 1] != NEWLINE by { NewlineNotPrintable(); }
    }
    assert cs[..|cs|] == cs;
    var t := cs[..|cs| - 1];
    forall k | 0 < k <= |t| ensures !Completes(|keys|, t[..k]) {
      assert t[..k] == cs[..k] && cs[..k][k - 1] == cs[k - 1];
    }
    WhenAnswered(|keys|, cs, [], lines);
    assert cs + [] == cs;
  }

  lemma NewlineNotPrintable()
    ensures !Printable(NEWLINE)
  {
  }

  /** A backspace takes the last character away, if there is one, and every other control or eight-bit character is
      dropped. */
  lemma TypedLast(keys: seq<byte>, c: byte)
    ensures 0x20 <= ByteVal(c) <= 0x7E ==> Typed(keys + [c]) == Typed(keys) + [c]
    ensures ByteVal(c) == 8 ==> Typed(keys + [c]) == if Typed(keys) == [] then [] else Typed(keys)[..|Typed(keys)| - 1]
    ensures (ByteVal(c) < 0x20 || ByteVal(c) > 0x7E) && ByteVal(c) != 8 ==> Typed(keys + [c]) == Typed(keys)
  {
    PrintableValue(c);
    assert (keys + [c])[..|keys|] == keys;
    assert ByteVal(c) == 8 <==> c == BACKSPACE by { BackspaceValue(c); }
  }

  /** A request for `n` characters is answered by the newline or by the n-th character that stays. */
  lemma LineEnds(n: nat, keys: seq<byte>, c: byte)
    ensures Completes(n, keys + [c]) <==> ByteVal(c) == 0x0A || |Typed(keys + [c])| == n
  {
    hide Typed;
    if ByteVal(c) == 0x0A { ByteBack(c); }
    assert ByteVal(NEWLINE) == 0x0A;
  }

  lemma BackspaceValue(c: byte)
    ensures ByteVal(c) == 8 <==> c == BACKSPACE
  {
    if ByteVal(c) == 8 { ByteBack(c); }
  }

  /** A request for nothing is never answered. */
  lemma {:induction false} NothingWanted(keys: seq<byte>, lines: seq<seq<byte>>)
    ensures FedAll(Session(0, [], lines), keys) == Session(0, [], lines)
    decreases |keys|
  {
    if |keys| > 0 {
      NothingWanted(keys[1..], lines);
    }
  }
}
