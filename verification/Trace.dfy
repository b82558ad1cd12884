/** `_TraceIdGenerator` (client/trace.py): ids made of host, millisecond, sequence
    number and process, under an arbitrary clock. */
module Trace {

  function Digit(d: nat): char
    requires d < 10
  {
    "0123456789"[d]
  }

  function Decimal(n: nat): (s: string)
    ensures s != ""
  {
    if n < 10 then [Digit(n)] else Decimal(n / 10) + [Digit(n % 10)]
  }

  /** Reads a decimal number back. */
  function Parse(s: string): nat {
    if s == "" then 0
    else
      var c := s[|s| - 1];
      10 * Parse(s[..|s| - 1]) + if '0' <= c <= '9' then c as nat - '0' as nat else 0
  }

  function Pow10(k: nat): nat { if k == 0 then 1 else 10 * Pow10(k - 1) }

  lemma {:induction false} ParseDecimal(n: nat)
    ensures Parse(Decimal(n)) == n
  {
    var s := Decimal(n);
    if n >= 10 {
      ParseDecimal(n / 10);
      assert s[..|s| - 1] == Decimal(n / 10);
    } else {
      assert s[..0] == "";
    }
  }

  /** n has exactly k digits. */
  lemma {:induction false} DigitCount(n: nat, k: nat)
    requires k > 0 && n < Pow10(k) && (k == 1 || Pow10(k - 1) <= n)
    ensures |Decimal(n)| == k
  {
    if k == 1 {
    } else {
      assert Pow10(k - 1) >= 10 || k == 2;
      if k > 2 { PowersGrow(k - 2); }
      DigitCount(n / 10, k - 1);
    }
  }

  lemma {:induction false} PowersGrow(k: nat)
    ensures Pow10(k) >= 1
  {
    if k == 0 {
    } else {
      PowersGrow(k - 1);
    }
  }

  /** `{n:04d}` */
  function Pad4(n: nat): string {
    var s := Decimal(n);
    if |s| >= 4 then s else seq(4 - |s|, _ => '0') + s
  }

  datatype State = State(lastTimestamp: int, sequence: int)

  const START := State(0, 1000)

  ghost predicate Inv(s: State) { s.lastTimestamp >= 0 && 1000 <= s.sequence <= 9999 }

  function Step(s: State, clock: int): State {
    State(if clock <= s.lastTimestamp then s.lastTimestamp + 1 else clock,
          if s.sequence >= 9999 then 1000 else s.sequence + 1)
  }

  function Id(ip: string, pid: string, s: State): string
    requires Inv(s)
  {
    ip + Decimal(s.lastTimestamp) + Pad4(s.sequence) + "d" + pid
  }

  lemma {:induction false} SequenceHasFourDigits(s: State)
    requires Inv(s)
    ensures |Pad4(s.sequence)| == 4
  {
    assert Pow10(3) == 1000 && Pow10(4) == 10000;
    DigitCount(s.sequence, 4);
  }

  /** The fields of an id, read back: host, millisecond, four digits of sequence number,
      the letter d, process. */
  ghost predicate Reads(id: string, ip: string, pid: string, timestamp: int, sequence: int) {
    var n := |id| - |pid|;
    && n >= |ip| + 5
    && id[..|ip|] == ip && Parse(id[|ip|..n - 5]) == timestamp && Parse(id[n - 5..n - 1]) == sequence
    && id[n - 1] == 'd' && id[n..] == pid
  }

  lemma {:induction false} ParseZeros(k: nat, s: string)
    ensures Parse(seq(k, _ => '0') + s) == Parse(s)
    decreases k + |s|
  {
    var zeros := seq(k, _ => '0');
    if s != "" {
      assert (zeros + s)[..k + |s| - 1] == zeros + s[..|s| - 1];
      ParseZeros(k, s[..|s| - 1]);
    } else if k > 0 {
      assert zeros + s == zeros && zeros[..k - 1] == seq(k - 1, _ => '0') + "";
      ParseZeros(k - 1, "");
    } else {
      assert zeros + s == s;
    }
  }

  lemma {:induction false} ParsePad4(n: nat)
    ensures Parse(Pad4(n)) == n
  {
    ParseDecimal(n);
    if |Decimal(n)| < 4 {
      ParseZeros(4 - |Decimal(n)|, Decimal(n));
    }
  }

  lemma {:induction false} Slices(ip: string, a: string, b: string, pid: string)
    requires |b| == 4
    ensures var id := ip + a + b + "d" + pid; var n := |id| - |pid|;
            && n == |ip| + |a| + 5
            && id[..|ip|] == ip && id[|ip|..n - 5] == a && id[n - 5..n - 1] == b && id[n - 1] == 'd' && id[n..] == pid
  {
  }

  lemma {:induction false} FieldsOfId(ip: string, pid: string, s: State)
    requires Inv(s)
    ensures Reads(Id(ip, pid, s), ip, pid, s.lastTimestamp, s.sequence)
  {
    SequenceHasFourDigits(s);
    ParseDecimal(s.lastTimestamp);
    ParsePad4(s.sequence);
    hide Decimal, Parse, Pad4;
    Slices(ip, Decimal(s.lastTimestamp), Pad4(s.sequence), pid);
  }

  class TraceIdGenerator {
    var sequence: int
    var lastTimestamp: int
    const ipHex: string
    const pidHex: string

    ghost predicate Valid()
      reads this
    {
      Inv(Model())
    }

    ghost function Model(): State
      reads this
    {
      State(lastTimestamp, sequence)
    }

    constructor (ipHex: string, pidHex: string)
      ensures Valid() && Model() == START && this.ipHex == ipHex && this.pidHex == pidHex
    {
      this.ipHex, this.pidHex, sequence, lastTimestamp := ipHex, pidHex, 1000, 0;
    }

    /** One call; the lock makes it atomic. */
    method Next(clock: int) returns (id: string)
      requires Valid()
      modifies this
      ensures Valid() && Model() == Step(old(Model()), clock)
      ensures id == Id(ipHex, pidHex, Model())
      ensures Reads(id, ipHex, pidHex, lastTimestamp, sequence)
      // the clock, unless it stands still or goes back
      ensures lastTimestamp == if clock > old(lastTimestamp) then clock else old(lastTimestamp) + 1
      ensures sequence == if old(sequence) == 9999 then 1000 else old(sequence) + 1
    {
      var now := clock;
      if now <= lastTimestamp {
        now := lastTimestamp + 1;
      }
      lastTimestamp := now;
      sequence := if sequence >= 9999 then 1000 else sequence + 1;
      id := ipHex + Decimal(now) + Pad4(sequence) + "d" + pidHex;
      FieldsOfId(ipHex, pidHex, Model());
    }
  }

  // ----- unbounded runs, any clock -----

  /** The state after the calls made at these clock readings. */
  function After(clocks: seq<int>): (s: State)
    ensures Inv(s)
  {
    if clocks == [] then START else Step(After(clocks[..|clocks| - 1]), clocks[|clocks| - 1])
  }

  /** The id returned by call i. */
  function IdAt(ip: string, pid: string, clocks: seq<int>, i: nat): string
    requires i < |clocks|
  {
    Id(ip, pid, After(clocks[..i + 1]))
  }

  lemma {:induction false} TimestampsIncrease(clocks: seq<int>, i: nat, j: nat)
    requires i < j <= |clocks|
    ensures After(clocks[..i]).lastTimestamp < After(clocks[..j]).lastTimestamp
  {
    assert clocks[..j][..j - 1] == clocks[..j - 1];
    if i == j - 1 {
    } else {
      TimestampsIncrease(clocks, i, j - 1);
    }
  }

  /** The sequence number cycles through 1000..9999. */
  lemma {:induction false} SequenceCycles(clocks: seq<int>)
    ensures After(clocks).sequence == 1000 + |clocks| % 9000
  {
    if clocks == [] {
    } else {
      SequenceCycles(clocks[..|clocks| - 1]);
      NextModulo(|clocks| - 1);
    }
  }

  lemma {:induction false} NextModulo(n: nat)
    ensures (n + 1) % 9000 == if n % 9000 == 8999 then 0 else n % 9000 + 1
  {
    var q, r := n / 9000, n % 9000;
    assert n == 9000 * q + r;
    if r == 8999 {
      assert n + 1 == 9000 * (q + 1);
    } else {
      assert n + 1 == 9000 * q + (r + 1);
    }
  }

  lemma {:induction false} IdDeterminesTimestamp(ip: string, pid: string, s: State, t: State)
    requires Inv(s) && Inv(t) && Id(ip, pid, s) == Id(ip, pid, t)
    ensures s.lastTimestamp == t.lastTimestamp
  {
    hide Decimal, Pad4, Parse;
    SequenceHasFourDigits(s);
    SequenceHasFourDigits(t);
    var a, b := Decimal(s.lastTimestamp), Decimal(t.lastTimestamp);
    var x, y := Id(ip, pid, s), Id(ip, pid, t);
    assert |x| == |ip| + |a| + 5 + |pid| && |y| == |ip| + |b| + 5 + |pid|;
    assert a == x[|ip|..|ip| + |a|] && b == y[|ip|..|ip| + |b|];
    ParseDecimal(s.lastTimestamp);
    ParseDecimal(t.lastTimestamp);
  }

  /** No two ids of a process are equal, whatever the clock does. */
  lemma {:induction false} IdsAreDistinct(ip: string, pid: string, clocks: seq<int>, i: nat, j: nat)
    requires i < j < |clocks|
    ensures IdAt(ip, pid, clocks, i) != IdAt(ip, pid, clocks, j)
  {
    TimestampsIncrease(clocks, i + 1, j + 1);
    if IdAt(ip, pid, clocks, i) == IdAt(ip, pid, clocks, j) {
      IdDeterminesTimestamp(ip, pid, After(clocks[..i + 1]), After(clocks[..j + 1]));
    }
  }

  lemma {:induction false} DecimalBelow(n: nat, k: nat)
    requires k > 0 && |Decimal(n)| == k
    ensures n < Pow10(k) && (k == 1 || Pow10(k - 1) <= n)
  {
    if n >= 10 {
      DecimalBelow(n / 10, k - 1);
      assert Pow10(k) == 10 * Pow10(k - 1);
      if k > 2 { assert Pow10(k - 1) == 10 * Pow10(k - 2); }
    }
  }

  /** An id has the documented 30 characters if and only if the millisecond value has 13
      digits. */
  lemma {:induction false} ThirtyCharactersIff(ip: string, pid: string, clocks: seq<int>, i: nat)
    requires i < |clocks| && |ip| == 8 && |pid| == 4
    ensures |IdAt(ip, pid, clocks, i)| == 30
       <==> 1_000_000_000_000 <= After(clocks[..i + 1]).lastTimestamp < 10_000_000_000_000
  {
    var s := After(clocks[..i + 1]);
    SequenceHasFourDigits(s);
    PowerOf13();
    if |Decimal(s.lastTimestamp)| == 13 {
      DecimalBelow(s.lastTimestamp, 13);
    }
    if 1_000_000_000_000 <= s.lastTimestamp < 10_000_000_000_000 {
      DigitCount(s.lastTimestamp, 13);
    }
  }

  lemma {:induction false} PowerOf13()
    ensures Pow10(12) == 1_000_000_000_000 && Pow10(13) == 10_000_000_000_000
  {
    assert Pow10(4) == 10_000;
    assert Pow10(8) == 100_000_000;
  }
}
