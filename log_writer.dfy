/** The buffered log file: messages are collected in a buffer and written
    to the file in batches once the buffer holds `bufferSize` of them, and
    on close. The file is modelled by the text written to it so far; the
    clock readings in the header and footer are given as strings. */
module Log {

  function Dashes(n: nat): (r: string)
    ensures |r| == n && forall i :: 0 <= i < n ==> r[i] == '-'
  {
    seq(n, _ => '-')
  }

  /** The text written when the file is opened. */
  function Header(stamp: string): string {
    "網站爬蟲 Log 檔案\n生成時間: " + stamp + "\n" + Dashes(50) + "\n\n"
  }

  /** The text written when the file is closed. */
  function Footer(stamp: string): string {
    "\n" + Dashes(50) + "\nLog 結束時間: " + stamp + "\n"
  }

  /** Every message followed by a newline, in order. */
  function Lines(ms: seq<string>): string {
    if ms == [] then "" else Lines(ms[..|ms| - 1]) + ms[|ms| - 1] + "\n"
  }

  /** The messages joined by newlines, as `'\n'.join` does. */
  function JoinLines(ms: seq<string>): string {
    if ms == [] then ""
    else if |ms| == 1 then ms[0]
    else JoinLines(ms[..|ms| - 1]) + "\n" + ms[|ms| - 1]
  }

  /** A batch of messages joined by newlines and closed by one more
      newline is each message on a line of its own. */
  lemma {:induction false} JoinThenNewline(ms: seq<string>)
    requires ms != []
    ensures JoinLines(ms) + "\n" == Lines(ms)
  {
    if |ms| > 1 {
      var init := ms[..|ms| - 1];
      JoinThenNewline(init);
      assert init[..|init| - 1] == ms[..|ms| - 2];
    } else {
      assert ms[..0] == [];
    }
  }

  /** Writing two batches one after the other writes their messages in
      order. */
  lemma {:induction false} LinesConcat(a: seq<string>, b: seq<string>)
    ensures Lines(a + b) == Lines(a) + Lines(b)
  {
    if b == [] {
      assert a + b == a;
    } else {
      var init := b[..|b| - 1];
      LinesConcat(a, init);
      assert (a + b)[..|a + b| - 1] == a + init;
      assert Lines(a + b) == Lines(a + init) + b[|b| - 1] + "\n";
    }
  }

  /** `buffer` is the last `|buffer|` of `logged`. */
  predicate IsTail(buffer: seq<string>, logged: seq<string>) {
    |buffer| <= |logged| && buffer == logged[|logged| - |buffer|..]
  }

  /** The messages of `logged` before its tail `buffer`. */
  function Before(buffer: seq<string>, logged: seq<string>): (done: seq<string>)
    requires IsTail(buffer, logged)
    ensures done + buffer == logged
  {
    assert logged[..|logged| - |buffer|] + logged[|logged| - |buffer|..] == logged;
    logged[..|logged| - |buffer|]
  }

  /** A message accepted into the buffer extends the tail and leaves what
      precedes it alone. */
  lemma Appended(buffer: seq<string>, logged: seq<string>, m: string)
    requires IsTail(buffer, logged)
    ensures IsTail(buffer + [m], logged + [m])
    ensures Before(buffer + [m], logged + [m]) == Before(buffer, logged)
  {
    var n := |logged| - |buffer|;
    assert (logged + [m])[..n] == logged[..n];
    assert (logged + [m])[n..] == buffer + [m];
  }

  /** The text written so far followed by the buffer's lines is the header
      and every message. */
  lemma Whole(written: string, header: string, buffer: seq<string>, logged: seq<string>)
    requires IsTail(buffer, logged) && written == header + Lines(Before(buffer, logged))
    ensures written + Lines(buffer) == header + Lines(logged)
  {
    LinesConcat(Before(buffer, logged), buffer);
  }

  /** With the buffer empty the file holds the header and every message;
      the footer follows them. */
  lemma Closing(written: string, header: string, logged: seq<string>, footer: string)
    requires IsTail([], logged) && written == header + Lines(Before([], logged)) + ""
    ensures written + footer == header + Lines(Before([], logged)) + footer
    ensures written + footer == header + Lines(logged) + footer
  {
    assert Before([], logged) == logged;
  }

  class LogWriter {
    var isOpen: bool               // the file is open
    var written: string            // the text written to the file so far
    var buffer: seq<string>        // messages not yet written
    const bufferSize: int
    ghost var logged: seq<string>  // every message accepted, in call order
    ghost var header: string       // the header, or "" when opening failed
    ghost var footer: string       // the footer once closed, else ""

    /** The file followed by the buffer holds the header and every accepted
        message in order; the buffer is the tail of those messages and is
        empty unless the file is open. */
    ghost predicate Accounts()
      reads this
    {
      IsTail(buffer, logged)
      && written == header + Lines(Before(buffer, logged)) + footer
      && (isOpen ==> footer == "")
      && (!isOpen ==> buffer == [])
    }

    /** Besides, an open buffer is kept below its threshold. */
    ghost predicate Valid()
      reads this
    {
      Accounts() && (isOpen ==> |buffer| < bufferSize || buffer == [])
    }

    /** Opens the file and writes the header; when opening fails the file
        stays closed and nothing is written. */
    constructor (opens: bool, stamp: string, bufferSize: int)
      ensures Valid()
      ensures isOpen == opens && buffer == [] && logged == [] && footer == ""
      ensures written == header == (if opens then Header(stamp) else "")
      ensures this.bufferSize == bufferSize
    {
      this.bufferSize := bufferSize;
      buffer := [];
      logged := [];
      footer := "";
      isOpen := opens;
      if opens {
        written := Header(stamp);
      } else {
        written := "";
      }
      header := written;
    }

    /** Writes the buffered messages, newline-joined and closed by a
        newline, and empties the buffer; with the file closed or the buffer
        empty it writes nothing. */
    method FlushBuffer()
      requires Accounts()
      modifies this
      ensures Accounts()
      ensures isOpen == old(isOpen) && logged == old(logged)
      ensures header == old(header) && footer == old(footer)
      ensures if old(isOpen) && old(buffer) != []
              then written == old(written) + JoinLines(old(buffer)) + "\n" && buffer == []
              else written == old(written) && buffer == old(buffer)
    {
      if isOpen && buffer != [] {
        JoinThenNewline(buffer);
        Whole(written, header, buffer, logged);
        written := written + JoinLines(buffer) + "\n";
        buffer := [];
        assert Before([], logged) == logged;
      }
    }

    /** Buffers a message, and writes the buffer once it reaches
        `bufferSize` messages; with the file closed the message is
        dropped. */
    method LogOnly(message: string)
      requires Valid()
      modifies this
      ensures Valid()
      ensures isOpen == old(isOpen) && header == old(header) && footer == old(footer)
      ensures !old(isOpen) ==> written == old(written) && buffer == old(buffer) && logged == old(logged)
      ensures old(isOpen) ==> logged == old(logged) + [message]
      ensures old(isOpen) ==>
                if |old(buffer)| + 1 >= bufferSize
                then buffer == [] && written == old(written) + JoinLines(old(buffer) + [message]) + "\n"
                else buffer == old(buffer) + [message] && written == old(written)
      ensures isOpen && bufferSize >= 1 ==> |buffer| < bufferSize
      ensures isOpen ==> written + Lines(buffer) == header + Lines(logged)
    {
      if isOpen {
        Appended(buffer, logged, message);
        buffer := buffer + [message];
        logged := logged + [message];
        if |buffer| >= bufferSize {
          FlushBuffer();
        }
        assert written == header + Lines(Before(buffer, logged)) + "";
        Whole(written, header, buffer, logged);
      }
    }

    /** Writes what is still buffered and the footer, and closes the file;
        closing a closed file does nothing. */
    method Close(stamp: string)
      requires Valid()
      modifies this
      ensures Valid()
      ensures !isOpen && buffer == [] && logged == old(logged) && header == old(header)
      ensures !old(isOpen) ==> written == old(written) && footer == old(footer)
      ensures old(isOpen) ==>
                written == old(written) + (if old(buffer) == [] then "" else JoinLines(old(buffer)) + "\n")
                           + Footer(stamp)
      ensures old(isOpen) ==> written == header + Lines(logged) + Footer(stamp)
    {
      if isOpen {
        FlushBuffer();
        var f := Footer(stamp);
        Closing(written, header, logged, f);
        written := written + f;
        footer := f;
        isOpen := false;
      }
    }
  }
}
