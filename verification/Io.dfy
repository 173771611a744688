/** The file helpers of `io.c` over the one file the plugin keeps, and the `stdio` behaviour they
    meet: short reads mean end of file or an error, writes can stop at any byte. */
module Io {
  import opened Text
  import opened Cidrs

  /** How one `io_write_text` ended: the file was never opened, it was truncated and holds only the
      first `kept` bytes, or all of it was written and closed. */
  datatype WriteOutcome = OpenRefused | Torn(kept: nat) | Complete

  function AfterWrite(file: Option<string>, text: string, outcome: WriteOutcome): Option<string> {
    match outcome
    case OpenRefused => file
    case Torn(kept) => Some(text[..Min(kept, |text|)])
    case Complete => Some(text)
  }

  /** A `FILE*` opened for reading. */
  class Stream {
    const data: string
    const faulty: bool
    var pos: nat
    var eof: bool
    var err: bool

    ghost predicate Valid()
      reads this
    {
      pos <= |data| && (eof ==> pos == |data|) && (err ==> faulty)
    }

    constructor (data: string, faulty: bool)
      ensures Valid() && this.data == data && this.faulty == faulty
      ensures pos == 0 && !eof && !err
    {
      this.data, this.faulty := data, faulty;
      pos, eof, err := 0, false, false;
    }

    /** `fread(buf + at, 1, request, this)`: everything asked for, or less together with the
        end-of-file or error indicator.  An error may come after any number of bytes. */
    method Fread(buf: array<char>, at: nat, request: nat) returns (n: nat)
      requires Valid() && at + request <= buf.Length
      modifies this, buf
      ensures Valid() && n <= request && pos == old(pos) + n
      ensures buf[..at + n] == old(buf[..at]) + data[old(pos)..pos]
      ensures n < request ==> eof || err
      ensures eof ==> old(eof) || n < request
    {
      var available := Min(request, |data| - pos);
      n := available;
      if faulty {
        n :| 0 <= n <= available;
      }
      forall i | 0 <= i < n { buf[at + i] := data[pos + i]; }
      pos := pos + n;
      if n < request {
        var broken := false;
        if faulty { broken := *; }
        if n < available || broken { err := true; } else { eof := true; }
      }
    }
  }

  /** The file system as far as the plugin sees it: one path, absent or holding bytes. */
  class Disk {
    var file: Option<string>
    /** Whether I/O calls can fail here. */
    const faulty: bool

    constructor (file: Option<string>, faulty: bool)
      ensures this.file == file && this.faulty == faulty
    {
      this.file, this.faulty := file, faulty;
    }

    /** `io_file_exists`: any failure to open reads as absence. */
    method FileExists() returns (found: bool, ghost refused: bool)
      ensures found == (file.Some? && !refused)
      ensures refused ==> faulty
    {
      refused := false;
      found := file.Some?;
      if found && faulty {
        found := *;
        refused := !found;
      }
    }

    /** `io_read_file_into`: the longest prefix of the file that fits beside a NUL.  The result is 0
        exactly when the file is strictly shorter than the room for it; an exact fit counts as
        truncated. */
    method ReadFileInto(buf: array<char>, bufsize: nat) returns (rc: int, outLen: nat, ghost failed: bool)
      requires bufsize <= buf.Length
      modifies buf
      ensures rc == -1 <==> bufsize == 0 || file.None? || failed
      ensures failed ==> faulty
      ensures rc != -1 ==>
        && outLen == Min(|file.value|, bufsize - 1)
        && buf[..outLen] == file.value[..outLen] && buf[outLen] == '\0'
        && rc == if |file.value| < bufsize - 1 then 0 else 1
    {
      outLen, failed := 0, false;
      if bufsize == 0 {
        return -1, outLen, failed;
      }
      var isOpen := file.Some?;
      if isOpen && faulty {
        isOpen := *;
        failed := !isOpen;
      }
      if !isOpen {
        return -1, outLen, failed;
      }
      var f := new Stream(file.value, faulty);
      var total := 0;
      rc := 0;
      var cap := bufsize - 1;
      while total < cap
        invariant total <= cap && f.Valid() && f.pos == total
        invariant buf[..total] == f.data[..total]
        invariant f.eof ==> total < cap
        invariant fresh(f)
        decreases cap - total, !f.eof && !f.err
      {
        var n := f.Fread(buf, total, cap - total);
        total := total + n;
        if n == 0 {
          if f.eof { break; }
          if f.err {
            failed := true;
            return -1, outLen, failed;
          }
        }
      }
      if !f.eof && total == cap {
        rc := 1;
      }
      buf[total] := '\0';
      outLen := total;
    }

    /** `io_write_text`: truncate, count up to the NUL, write, close. */
    method WriteText(buf: array<char>) returns (rc: int, ghost outcome: WriteOutcome)
      requires '\0' in buf[..]
      modifies this`file
      ensures file == AfterWrite(old(file), CString(buf[..]), outcome)
      ensures rc == if outcome.Complete? then 0 else -1
      ensures !faulty ==> outcome.Complete?
    {
      var fails := false;
      if faulty { fails := *; }
      if fails {
        return -1, OpenRefused;
      }
      var len := 0;
      assert buf[0..] == buf[..];
      while buf[len] != '\0'
        invariant len <= buf.Length && '\0' !in buf[..len] && '\0' in buf[len..]
        decreases buf.Length - len
      {
        assert buf[len..] == [buf[len]] + buf[len + 1..];
        len := len + 1;
      }
      var text := buf[..len];
      CStringOf(buf[..], text);
      var written, kept := len, len;
      if faulty {
        written :| 0 <= written <= len;
        kept :| 0 <= kept <= written;
        fails := *;
      }
      if written != len || fails {
        file := Some(text[..kept]);
        return -1, Torn(kept);
      }
      file := Some(text);
      return 0, Complete;
    }
  }
}
