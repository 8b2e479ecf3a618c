/** Log records and the fixed payload fields of a ring slot. */
module Records {
  import opened Words

  /** Bytes in a slot's message buffer. */
  const MAX_MSG_LEN: nat := 256

  /** `LogLevel`, from `kTrace` (0) to `kOff` (6). */
  type Level = x: int | 0 <= x <= 6

  /** What one `Log` call hands to the ring: its clock reading, its level and the
      bytes that formatting leaves in the slot. */
  datatype Record = Record(time: int, level: Level, text: string)

  /** The payload fields of a slot. `len` says how much of `msg` is meaningful. */
  datatype Payload = Payload(time: int, level: Level, msg: string, len: nat)

  /** The bytes that the sink is given for a slot. */
  function TextOf(msg: string, len: nat): string {
    msg[..Min(len, |msg|)]
  }

  /** Writing `text` over the front of a buffer; what does not fit is not written. */
  function Overlay(buffer: string, text: string): (r: string)
    ensures |r| == |buffer|
    ensures |text| <= |buffer| ==> TextOf(r, |text|) == text
    ensures forall i :: |text| <= i < |buffer| ==> r[i] == buffer[i]
  {
    var n := Min(|text|, |buffer|);
    text[..n] + buffer[n..]
  }

  ghost predicate Holds(s: Payload, r: Record) {
    s.time == r.time && s.level == r.level && s.len == |r.text| && TextOf(s.msg, s.len) == r.text
  }

  /** How `fmt::format_to_n` ends: with the whole formatted output, or by throwing
      after some of it was produced. */
  datatype Formatting = Complete(output: string) | Threw(partial: string)

  const FORMAT_ERROR := "[xmsigma: log format error]"

  /** The bytes a formatting leaves in a slot of `cap` bytes. */
  function Rendered(f: Formatting, cap: nat): (r: string)
    ensures |r| <= cap
  {
    var all := if f.Complete? then f.output else FORMAT_ERROR;
    all[..Min(|all|, cap)]
  }

  /** `static_cast<std::uint16_t>` */
  function Truncated16(n: nat): nat {
    n % 0x1_0000
  }

  /** `FormatInto`: truncates, never overruns, and reports a malformed format as a
      fixed diagnostic. The length it returns is a 16-bit word, so it is the number
      of bytes written exactly when that is below 2^16, as in any slot. */
  method FormatInto(dst: array<char>, cap: nat, f: Formatting) returns (len: nat)
    requires cap <= dst.Length
    modifies dst
    ensures len == Truncated16(|Rendered(f, cap)|) <= cap
    ensures len == |Rendered(f, cap)| <==> |Rendered(f, cap)| < 0x1_0000
    ensures dst[..|Rendered(f, cap)|] == Rendered(f, cap)
    ensures f.Complete? ==>
              var n := Min(|f.output|, cap);
              dst[..n] == f.output[..n] && len == n % 0x1_0000
    ensures f.Threw? ==>
              var n := Min(27, cap);
              dst[..n] == "[xmsigma: log format error]"[..n] && len == n
    ensures forall i :: cap <= i < dst.Length ==> dst[i] == old(dst[i])
  {
    var produced := if f.Complete? then f.output else f.partial;
    CopyFront(dst, produced, Min(|produced|, cap));
    if f.Complete? {
      len := Truncated16(if |f.output| < cap then |f.output| else cap);
    } else {
      var n := |FORMAT_ERROR|;
      if n > cap { n := cap; }
      CopyFront(dst, FORMAT_ERROR, n);
      len := Truncated16(n);
    }
  }

  /** What a slot of 256 bytes gets: at most the first 256 bytes of the output, or the
      whole diagnostic. */
  lemma RenderedInSlot(f: Formatting)
    ensures Rendered(f, MAX_MSG_LEN) ==
            if f.Threw? then "[xmsigma: log format error]"
            else if |f.output| <= 256 then f.output
            else f.output[..256]
  {
  }

  /** The shortest output whose length is lost: 2^16 bytes into a buffer that holds
      them are reported as none. */
  lemma LengthLost(output: string)
    requires |output| == 0x1_0000
    ensures |Rendered(Complete(output), 0x1_0000)| == 0x1_0000
    ensures Truncated16(|Rendered(Complete(output), 0x1_0000)|) == 0
  {
  }

  method CopyFront(dst: array<char>, src: string, n: nat)
    requires n <= |src| && n <= dst.Length
    modifies dst
    ensures dst[..n] == src[..n]
    ensures forall i :: n <= i < dst.Length ==> dst[i] == old(dst[i])
  {
    for i := 0 to n
      invariant dst[..i] == src[..i]
      invariant forall j :: i <= j < dst.Length ==> dst[j] == old(dst[j])
    {
      dst[i] := src[i];
    }
  }
}
