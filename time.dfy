/**
 * The hour/minute value object `Time`: a mutable pair of Java `int`s with non-normalising
 * add operations (no carry from minutes into hours, no wrap at 24 hours) and an `hh:mm` text form.
 */
module TimeValue {
  import opened Wrappers
  import opened JavaInt
  import opened Decimal

  /** Number of occurrences of `c` in `s`. */
  function CountChar(s: string, c: char): nat
    decreases |s|
  {
    if s == [] then 0 else CountChar(s[..|s| - 1], c) + (if s[|s| - 1] == c then 1 else 0)
  }

  /** Position of the first `c` in `s`, if any. */
  function IndexOf(s: string, c: char): (r: Option<nat>)
    ensures r.Some? ==> r.value < |s| && s[r.value] == c && c !in s[..r.value]
    ensures r.None? ==> c !in s
    decreases |s|
  {
    if s == [] then None
    else if s[0] == c then Some(0)
    else match IndexOf(s[1..], c)
      case None => None
      case Some(i) => Some(i + 1)
  }

  /** The text `toString` produces for hour `h` and minute `m`. */
  function Format(h: int, m: int): string {
    Pad(ValueOf(h)) + ":" + Pad(ValueOf(m))
  }

  /** Splits at the first ':' and reads both sides as decimal numbers. */
  function ParseTime(s: string): Option<(int, int)> {
    match IndexOf(s, ':')
    case None => None
    case Some(i) =>
      match (ParseDecimal(s[..i]), ParseDecimal(s[i + 1..]))
      case (Some(h), Some(m)) => Some((h, m))
      case _ => None
  }

  lemma {:induction false} CountCharAppend(a: string, b: string, c: char)
    ensures CountChar(a + b, c) == CountChar(a, c) + CountChar(b, c)
    decreases |b|
  {
    if b != [] {
      var b' := b[..|b| - 1];
      assert (a + b)[..|a + b| - 1] == a + b';
      assert (a + b)[|a + b| - 1] == b[|b| - 1];
      CountCharAppend(a, b', c);
    } else {
      assert a + b == a;
    }
  }

  lemma {:induction false} CountCharAbsent(s: string, c: char)
    requires c !in s
    ensures CountChar(s, c) == 0
    decreases |s|
  {
    if s != [] {
      assert s[..|s| - 1] <= s;
      CountCharAbsent(s[..|s| - 1], c);
    }
  }

  lemma NoColonInNumber(x: int)
    ensures ':' !in Pad(ValueOf(x))
  {
    var p := Pad(ValueOf(x));
    assert forall i :: 0 <= i < |p| ==> IsDigit(p[i]) || p[i] == '-';
  }

  /**
   * The formatted text has exactly one ':' and reading its two sides back gives the
   * original hour and minute, for every pair of integers.
   */
  lemma FormatRoundTrip(h: int, m: int)
    ensures CountChar(Format(h, m), ':') == 1
    ensures ParseTime(Format(h, m)) == Some((h, m))
  {
    var ph, pm := Pad(ValueOf(h)), Pad(ValueOf(m));
    var s := Format(h, m);
    NoColonInNumber(h);
    NoColonInNumber(m);
    CountCharAppend(ph + ":", pm, ':');
    CountCharAppend(ph, ":", ':');
    CountCharAbsent(ph, ':');
    CountCharAbsent(pm, ':');
    assert CountChar(":", ':') == 1 by {
      assert (":")[..0] == [];
    }
    var r := IndexOf(s, ':');
    assert s[|ph|] == ':';
    assert r.Some?;
    assert r.value == |ph|;
    assert s[..|ph|] == ph;
    assert s[|ph| + 1..] == pm;
    PadRoundTrip(h);
    PadRoundTrip(m);
  }

  /** For in-range clock values the text is the familiar five-character `HH:MM`. */
  lemma FormatClockShape(h: int, m: int)
    requires 0 <= h <= 23 && 0 <= m <= 59
    ensures |Format(h, m)| == 5 && Format(h, m)[2] == ':'
  {
    PadRule(h);
    PadRule(m);
  }

  /** Values outside 0..9 are written unpadded: 23:70 stays as it is, -5 and 123 are not padded. */
  lemma FormatUnpaddedExamples()
    ensures Format(23, 70) == "23:70"
    ensures Format(-5, 123) == "-5:123"
    ensures Format(7, 5) == "07:05"
  {
    assert Digits(23) == "23" && Digits(70) == "70" && Digits(123) == "123";
  }

  class Time {
    var hora: Int32
    var minutos: Int32

    /** Stores the hour and minute as given; no range check is made. */
    constructor (hora: Int32, minutos: Int32)
      ensures this.hora == hora && this.minutos == minutos
    {
      this.hora := hora;
      this.minutos := minutos;
    }

    method AddHora() returns (t: Time)
      modifies this`hora
      ensures t == this
      ensures hora == Wrap32(old(hora) + 1) && minutos == old(minutos)
    {
      hora := Wrap32(hora + 1);
      t := this;
    }

    method AddHoras(horasAgregar: Int32) returns (t: Time)
      modifies this`hora
      ensures t == this
      ensures hora == Wrap32(old(hora) + horasAgregar) && minutos == old(minutos)
      ensures INT_MIN <= old(hora) + horasAgregar <= INT_MAX ==> hora == old(hora) + horasAgregar
    {
      hora := Wrap32(hora + horasAgregar);
      t := this;
    }

    method AddMinuto() returns (t: Time)
      modifies this`minutos
      ensures t == this
      ensures minutos == Wrap32(old(minutos) + 1) && hora == old(hora)
    {
      minutos := Wrap32(minutos + 1);
      t := this;
    }

    method AddMinutos(minutosAgregar: Int32) returns (t: Time)
      modifies this`minutos
      ensures t == this
      ensures minutos == Wrap32(old(minutos) + minutosAgregar) && hora == old(hora)
      ensures INT_MIN <= old(minutos) + minutosAgregar <= INT_MAX ==> minutos == old(minutos) + minutosAgregar
    {
      minutos := Wrap32(minutos + minutosAgregar);
      t := this;
    }

    method GetHora() returns (h: Int32)
      ensures h == hora
    {
      h := hora;
    }

    method GetMinutos() returns (m: Int32)
      ensures m == minutos
    {
      m := minutos;
    }

    method SetHora(hora: Int32)
      modifies this`hora
      ensures this.hora == hora && minutos == old(minutos)
    {
      this.hora := hora;
    }

    method SetMinutos(minutos: Int32)
      modifies this`minutos
      ensures this.minutos == minutos && hora == old(hora)
    {
      this.minutos := minutos;
    }

    /** `hh:mm`, each side padded to two characters only when its decimal text is one character long. */
    function ToString(): (s: string)
      reads this
      ensures CountChar(s, ':') == 1
      ensures ParseTime(s) == Some((hora, minutos))
    {
      FormatRoundTrip(hora, minutos);
      Format(hora, minutos)
    }
  }

  /** Adding minutes never carries into the hour: 23:50 plus 20 minutes is 23:70. */
  method AddMinutosDoesNotCarry() returns (t: Time)
    ensures t.hora == 23 && t.minutos == 70
    ensures t.ToString() == "23:70"
  {
    t := new Time(23, 50);
    t := t.AddMinutos(20);
    FormatUnpaddedExamples();
  }
}
