/** The single-slot relay between the USB report callback and the I2C
    slave: the last decoded token sits NUL-terminated in a 32-byte transmit
    buffer, a new token overwrites it in place, and each read request from
    the I2C master sends the bytes before the first NUL without clearing
    them. */
module I2cRelay {

  import opened KeyDecoder

  /** Size of the transmit buffer. */
  const BufSize := 32

  /** A buffer image whose last byte is the terminating NUL. */
  predicate Terminated(s: seq<byte>) {
    |s| == BufSize && s[BufSize - 1] == 0
  }

  /** The number of bytes before the first NUL, or |s| when there is none. */
  function StrLen(s: seq<byte>): (n: nat)
    ensures n <= |s|
    ensures forall j :: 0 <= j < n ==> s[j] != 0
    ensures n < |s| ==> s[n] == 0
  {
    if |s| == 0 || s[0] == 0 then 0 else 1 + StrLen(s[1..])
  }

  /** The C string a buffer image holds: its bytes before the first NUL. */
  function CString(s: seq<byte>): (r: seq<byte>)
    ensures |r| <= |s| && r == s[..|r|]
    ensures forall j :: 0 <= j < |r| ==> r[j] != 0
    ensures |r| < |s| ==> s[|r|] == 0
  {
    s[..StrLen(s)]
  }

  /** A C string that fits is read back unchanged from any buffer that holds
      it followed by a NUL. */
  lemma CStringOfTerminated(s: seq<byte>, text: seq<byte>)
    requires |text| < |s| && s[..|text|] == text && s[|text|] == 0
    requires forall j :: 0 <= j < |text| ==> text[j] != 0
    ensures CString(s) == text
  {
    assert StrLen(s) == |text| by {
      assert forall j :: 0 <= j < |text| ==> s[j] == text[j];
    }
  }

  /** The bytes of a token: every token character is ASCII. */
  function Ascii(t: string): (b: seq<byte>)
    requires IsTokenText(t)
    ensures |b| == |t|
    ensures forall i :: 0 <= i < |t| ==> b[i] as int == t[i] as int && b[i] != 0
  {
    seq(|t|, i requires 0 <= i < |t| => t[i] as int as byte)
  }

  /** The definition of C's strncpy(dst, src, n) for a C string src (its
      bytes before the NUL): the bytes of src, cut at n, then NUL padding
      up to n. */
  function Strncpy(src: seq<byte>, n: nat): (d: seq<byte>)
    requires forall j :: 0 <= j < |src| ==> src[j] != 0
    ensures |d| == n
  {
    seq(n, j requires 0 <= j < n => if j < |src| then src[j] else 0)
  }

  /** A C string copied with room to spare reads back as itself, and a longer
      one is cut to the first n bytes. */
  lemma StrncpyReadsBack(src: seq<byte>, n: nat)
    requires forall j :: 0 <= j < |src| ==> src[j] != 0
    ensures |src| < n ==> CString(Strncpy(src, n)) == src
    ensures n <= |src| ==> CString(Strncpy(src, n)) == src[..n]
  {
    var d := Strncpy(src, n);
    if |src| < n {
      assert d[..|src|] == src;
      CStringOfTerminated(d, src);
    } else {
      assert d == src[..n];
    }
  }

  /** The buffer after storing a token: strncpy over the whole buffer, then
      the last byte forced to NUL, so a text too long for the buffer would
      be cut to its first 31 bytes. */
  function Stored(t: string): (r: seq<byte>)
    requires IsTokenText(t)
    ensures Terminated(r)
    ensures |t| < BufSize ==> CString(r) == Ascii(t)
    ensures BufSize <= |t| ==> CString(r) == Ascii(t)[..BufSize - 1]
  {
    var r := Strncpy(Ascii(t), BufSize)[BufSize - 1 := 0];
    if |t| < BufSize then
      assert r[..|t|] == Ascii(t);
      CStringOfTerminated(r, Ascii(t));
      r
    else
      assert r[..BufSize - 1] == Ascii(t)[..BufSize - 1];
      CStringOfTerminated(r, Ascii(t)[..BufSize - 1]);
      r
  }

  /** The buffer after one report: a token overwrites it, no token leaves it. */
  function AfterReport(s: seq<byte>, report: seq<byte>): (r: seq<byte>)
    requires |report| >= ReportLength
    ensures Decode(report).Some? ==> Terminated(r) && CString(r) == Ascii(Decode(report).value)
    ensures Decode(report).None? ==> r == s
  {
    match Decode(report)
    case None => s
    case Some(t) => Stored(t)
  }

  /** A stored token is exactly the text followed by zero bytes: nothing
      of the previous contents survives. */
  lemma StoredIsPadded(t: string)
    requires IsTokenText(t) && |t| <= MaxTokenLength
    ensures Stored(t) == Ascii(t) + seq(BufSize - |t|, _ => 0)
  {
    var s := Stored(t);
    var p := Ascii(t) + seq(BufSize - |t|, _ => 0);
    forall j | 0 <= j < BufSize
      ensures s[j] == p[j]
    {
    }
  }

  /** Every report keeps the buffer NUL-terminated. */
  lemma ReportKeepsTerminated(s: seq<byte>, report: seq<byte>)
    requires Terminated(s) && |report| >= ReportLength
    ensures Terminated(AfterReport(s, report))
  {
  }

  /** A later token fully replaces an earlier one: after two reports the
      buffer is what the second alone would have left. */
  lemma LatestTokenWins(s: seq<byte>, r1: seq<byte>, r2: seq<byte>)
    requires |r1| >= ReportLength && |r2| >= ReportLength && Decode(r2).Some?
    ensures AfterReport(AfterReport(s, r1), r2) == AfterReport(s, r2)
    ensures CString(AfterReport(AfterReport(s, r1), r2)) == Ascii(Decode(r2).value)
  {
  }

  /** A report whose six key slots are all zero leaves the buffer as it was. */
  lemma EmptyReportKeepsBuffer(s: seq<byte>, report: seq<byte>)
    requires |report| >= ReportLength
    requires forall j :: FirstSlot <= j < ReportLength ==> report[j] == 0
    ensures AfterReport(s, report) == s
  {
  }

  /** The transmit buffer i2c_tx_buf and the two callbacks that use it. */
  class RelaySlot {
    var buf: array<byte>

    ghost predicate Valid()
      reads this, buf
    {
      Terminated(buf[..])
    }

    /** What a read request would send now. */
    function Text(): seq<byte>
      reads this, buf
    {
      CString(buf[..])
    }

    /** The buffer is static storage: it starts all zero, so empty. */
    constructor ()
      ensures Valid() && fresh(buf)
      ensures buf[..] == seq(BufSize, _ => 0)
      ensures Text() == []
    {
      buf := new byte[BufSize](_ => 0);
    }

    /** The report callback: scan the six key slots, render the first
        non-zero one and copy its text into the buffer. */
    method OnReport(report: seq<byte>)
      requires Valid() && |report| >= ReportLength
      modifies buf
      ensures Valid()
      ensures buf[..] == AfterReport(old(buf[..]), report)
      ensures Decode(report).Some? ==> Text() == Ascii(Decode(report).value)
      ensures Decode(report).None? ==> Text() == old(Text())
    {
      var modifiers := report[0];
      var keyText: string := "";
      var keyFound := false;
      for i := FirstSlot to ReportLength
        invariant !keyFound
        invariant Scan(report, i) == Decode(report)
        invariant buf[..] == old(buf[..])
      {
        if report[i] == 0 {
          continue;
        }
        var shift := Shift(modifiers);
        keyText := KeyText(report[i], shift);
        keyFound := true;
        if keyFound {
          CopyPadded(buf, Ascii(keyText));
          buf[BufSize - 1] := 0;
          break;
        }
      }
    }

    /** The I2C_SLAVE_REQUEST case: send the buffer up to its first NUL, if
        anything, and leave the buffer as it is. */
    method OnRequest() returns (sent: seq<byte>)
      requires Valid()
      ensures sent == Text()
      ensures |sent| < BufSize
      ensures forall j :: 0 <= j < |sent| ==> sent[j] != 0
    {
      var txLen := 0;
      while buf[txLen] != 0
        invariant 0 <= txLen < BufSize
        invariant forall j :: 0 <= j < txLen ==> buf[j] != 0
        decreases BufSize - txLen
      {
        txLen := txLen + 1;
      }
      sent := [];
      if txLen > 0 {
        sent := buf[..txLen];
      }
    }
  }

  /** strncpy into a whole buffer, for a source without NUL bytes. */
  method CopyPadded(dst: array<byte>, src: seq<byte>)
    requires forall j :: 0 <= j < |src| ==> src[j] != 0
    modifies dst
    ensures dst[..] == Strncpy(src, dst.Length)
  {
    for j := 0 to dst.Length
      invariant forall k :: 0 <= k < j ==> dst[k] == if k < |src| then src[k] else 0
    {
      dst[j] := if j < |src| then src[j] else 0;
    }
  }

  /** Two read requests with no report between them send the same bytes. */
  method RequestTwice(slot: RelaySlot) returns (first: seq<byte>, second: seq<byte>)
    requires slot.Valid()
    ensures first == second == slot.Text()
  {
    first := slot.OnRequest();
    second := slot.OnRequest();
  }
}
