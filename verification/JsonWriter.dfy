/** The push-style JSON writer over a growable, bounded character buffer. */
module JsonWriter {
  import opened JsonValue

  const DEFAULT_BUFFER_SIZE: nat := 64 * 1024
  const MAX_BUFFER_SIZE: nat := 1024 * 1024
  /** The number formats print into a 32-byte scratch buffer, terminator included. */
  const SCRATCH_SIZE: nat := 32

  datatype Status = Ok | JsonOverflow {
    predicate IsFailure() { JsonOverflow? }
  }

  // ----- what a writer has produced so far -----

  /** The observable contents of a writer: its text and its sticky error flag. */
  datatype Sink = Sink(text: string, error: bool)

  /** `b` is what appending `payload` to `a` leaves, whatever pieces it came in.
      A failed writer stays as it is. Otherwise the error is raised exactly when the text does
      not fit below the maximum with its terminator, and then the buffer holds a prefix. */
  ghost predicate Wrote(a: Sink, b: Sink, payload: string) {
    && (a.error ==> b == a)
    && (!a.error ==>
          && (b.error <==> |a.text| + |payload| >= MAX_BUFFER_SIZE)
          && a.text <= b.text <= a.text + payload
          && (!b.error ==> b.text == a.text + payload))
  }

  lemma WroteThen(a: Sink, b: Sink, c: Sink, p: string, q: string)
    requires Wrote(a, b, p) && Wrote(b, c, q)
    ensures Wrote(a, c, p + q)
  {
    assert a.text + (p + q) == (a.text + p) + q;
    if !a.error && b.error {
      assert b.text <= a.text + p <= a.text + (p + q);
    }
  }

  lemma WroteStopped(a: Sink, b: Sink, p: string, q: string)
    requires Wrote(a, b, p) && b.error
    ensures Wrote(a, b, p + q)
  {
    assert a.text + (p + q) == (a.text + p) + q;
  }

  predicate ValidCapacity(capacity: nat) {
    exists k :: 0 <= k <= 4 && capacity == DEFAULT_BUFFER_SIZE * Doublings(k)
  }

  function Doublings(k: nat): nat {
    if k == 0 then 1 else 2 * Doublings(k - 1)
  }

  lemma DoubledCapacity(capacity: nat)
    requires ValidCapacity(capacity) && capacity < MAX_BUFFER_SIZE
    ensures ValidCapacity(2 * capacity) && DEFAULT_BUFFER_SIZE <= 2 * capacity <= MAX_BUFFER_SIZE
  {
    var k :| 0 <= k <= 4 && capacity == DEFAULT_BUFFER_SIZE * Doublings(k);
    assert Doublings(4) == 16;
    assert 2 * capacity == DEFAULT_BUFFER_SIZE * Doublings(k + 1);
  }

  lemma CapacityRange(capacity: nat)
    requires ValidCapacity(capacity)
    ensures 64 * 1024 <= capacity <= 1024 * 1024
  {
    var k :| 0 <= k <= 4 && capacity == DEFAULT_BUFFER_SIZE * Doublings(k);
    assert Doublings(4) == 16;
  }

  class Writer {
    var buffer: array<char>
    var capacity: nat
    var length: nat
    var needsComma: bool
    var error: bool

    ghost var Repr: set<object>

    ghost predicate Valid()
      reads this, Repr
      ensures Valid() ==> this in Repr
    {
      && this in Repr && buffer in Repr
      && buffer.Length == capacity
      && ValidCapacity(capacity)
      && length < capacity
      && buffer[length] == '\0'
    }

    ghost function View(): Sink
      reads this, Repr
      requires Valid()
    {
      Sink(buffer[..length], error)
    }

    constructor ()
      ensures Valid() && fresh(Repr)
      ensures View() == Sink("", false) && !needsComma
      ensures capacity == DEFAULT_BUFFER_SIZE
    {
      var a := new char[DEFAULT_BUFFER_SIZE];
      a[0] := '\0';
      buffer, capacity, length := a, DEFAULT_BUFFER_SIZE, 0;
      needsComma, error := false, false;
      Repr := {this, a};
      new;
      assert DEFAULT_BUFFER_SIZE == DEFAULT_BUFFER_SIZE * Doublings(0);
    }

    /** Doubles the buffer, or refuses once it has its maximal size. */
    method GrowBuffer(needed: nat) returns (ok: bool)
      requires Valid() && needed < SCRATCH_SIZE
      modifies Repr
      ensures Valid() && fresh(Repr - old(Repr))
      ensures View() == old(View()) && needsComma == old(needsComma)
      ensures ok == (old(capacity) < MAX_BUFFER_SIZE)
      ensures capacity == if ok then 2 * old(capacity) else old(capacity)
    {
      if capacity >= MAX_BUFFER_SIZE {
        return false;
      }
      CapacityRange(capacity);
      DoubledCapacity(capacity);
      var newCapacity := capacity * 2;
      if newCapacity < length + needed + 1 {
        newCapacity := length + needed + 1;
      }
      if newCapacity > MAX_BUFFER_SIZE {
        newCapacity := MAX_BUFFER_SIZE;
      }
      var newBuffer := new char[newCapacity];
      forall i | 0 <= i < capacity {
        newBuffer[i] := buffer[i];
      }
      assert newBuffer[..length] == buffer[..length];
      buffer := newBuffer;
      capacity := newCapacity;
      Repr := Repr + {newBuffer};
      return true;
    }

    method Append(chunk: string) returns (s: Status)
      requires Valid() && |chunk| < SCRATCH_SIZE
      modifies Repr
      ensures Valid() && fresh(Repr - old(Repr))
      ensures Wrote(old(View()), View(), chunk)
      ensures s.Ok? <==> !error
      ensures needsComma == old(needsComma)
    {
      if error {
        return JsonOverflow;
      }
      CapacityRange(capacity);
      if length + |chunk| >= capacity {
        var grown := GrowBuffer(|chunk|);
        if !grown {
          error := true;
          return JsonOverflow;
        }
      }
      CapacityRange(capacity);
      ghost var before := buffer[..length];
      forall i | 0 <= i < |chunk| {
        buffer[length + i] := chunk[i];
      }
      length := length + |chunk|;
      buffer[length] := '\0';
      assert buffer[..length] == before + chunk;
      return Ok;
    }

    method AppendChar(c: char) returns (s: Status)
      requires Valid()
      modifies Repr
      ensures Valid() && fresh(Repr - old(Repr))
      ensures Wrote(old(View()), View(), [c])
      ensures s.Ok? <==> !error
      ensures needsComma == old(needsComma)
    {
      s := Append([c]);
    }

    method MaybeComma() returns (s: Status)
      requires Valid()
      modifies Repr
      ensures Valid() && fresh(Repr - old(Repr))
      ensures Wrote(old(View()), View(), Lead(old(needsComma)))
      ensures needsComma ==> (s.Ok? <==> !error)
      ensures !needsComma ==> s.Ok?
      ensures needsComma == old(needsComma)
    {
      CapacityRange(capacity);
      if needsComma {
        s := AppendChar(',');
      } else {
        s := Ok;
      }
    }

    /** The string in quotes, every special character replaced by its escape. */
    method AppendEscaped(str: CString) returns (s: Status)
      requires Valid()
      modifies Repr
      ensures Valid() && fresh(Repr - old(Repr))
      ensures Wrote(old(View()), View(), Quote(str))
      ensures s.Ok? <==> !error
      ensures needsComma == old(needsComma)
    {
      hide Wrote, Escape, EscapeChar, Quote, Opened, Remaining;
      ghost var start := View();
      s := AppendChar('\"');
      QuoteSplit(str, 0);
      if s.IsFailure() {
        WroteStopped(start, View(), Opened(str, 0), Remaining(str, 0));
        return;
      }
      var i := 0;
      while i < |str|
        invariant 0 <= i <= |str|
        invariant Valid() && fresh(Repr - old(Repr))
        invariant !error && needsComma == old(needsComma)
        invariant Wrote(start, View(), Opened(str, i))
      {
        ghost var mid := View();
        EscapeCharFits(str[i]);
        s := Append(EscapeChar(str[i]));
        QuoteStep(str, i);
        WroteThen(start, mid, View(), Opened(str, i), EscapeChar(str[i]));
        i := i + 1;
        if s.IsFailure() {
          QuoteSplit(str, i);
          WroteStopped(start, View(), Opened(str, i), Remaining(str, i));
          return;
        }
      }
      ghost var mid := View();
      s := AppendChar('\"');
      QuoteSplit(str, |str|);
      WroteThen(start, mid, View(), Opened(str, |str|), Remaining(str, |str|));
    }

    /** A comma if one is due, then an opening bracket; no comma is due after it. */
    method Open(bracket: char) returns (s: Status)
      requires Valid()
      modifies Repr
      ensures Valid() && fresh(Repr - old(Repr))
      ensures Wrote(old(View()), View(), Lead(old(needsComma)) + [bracket])
      ensures s.Ok? <==> !error
      ensures !error ==> !needsComma
    {
      ghost var start := View();
      s := MaybeComma();
      if s.IsFailure() {
        WroteStopped(start, View(), Lead(old(needsComma)), [bracket]);
        return;
      }
      needsComma := false;
      ghost var mid := View();
      s := AppendChar(bracket);
      WroteThen(start, mid, View(), Lead(old(needsComma)), [bracket]);
    }

    method Close(bracket: char) returns (s: Status)
      requires Valid()
      modifies Repr
      ensures Valid() && fresh(Repr - old(Repr))
      ensures Wrote(old(View()), View(), [bracket])
      ensures s.Ok? <==> !error
      ensures needsComma
    {
      needsComma := true;
      s := AppendChar(bracket);
    }

    method BeginObject() returns (s: Status)
      requires Valid()
      modifies Repr
      ensures Valid() && fresh(Repr - old(Repr))
      ensures Wrote(old(View()), View(), Lead(old(needsComma)) + "{")
      ensures s.Ok? <==> !error
      ensures !error ==> !needsComma
    {
      s := Open('{');
    }

    method EndObject() returns (s: Status)
      requires Valid()
      modifies Repr
      ensures Valid() && fresh(Repr - old(Repr))
      ensures Wrote(old(View()), View(), "}")
      ensures s.Ok? <==> !error
      ensures needsComma
    {
      s := Close('}');
    }

    method BeginArray() returns (s: Status)
      requires Valid()
      modifies Repr
      ensures Valid() && fresh(Repr - old(Repr))
      ensures Wrote(old(View()), View(), Lead(old(needsComma)) + "[")
      ensures s.Ok? <==> !error
      ensures !error ==> !needsComma
    {
      s := Open('[');
    }

    method EndArray() returns (s: Status)
      requires Valid()
      modifies Repr
      ensures Valid() && fresh(Repr - old(Repr))
      ensures Wrote(old(View()), View(), "]")
      ensures s.Ok? <==> !error
      ensures needsComma
    {
      s := Close(']');
    }

    method Key(key: CString) returns (s: Status)
      requires Valid()
      modifies Repr
      ensures Valid() && fresh(Repr - old(Repr))
      ensures Wrote(old(View()), View(), Lead(old(needsComma)) + Quote(key) + ":")
      ensures s.Ok? <==> !error
      ensures !error ==> !needsComma
    {
      ghost var start := View();
      ghost var lead := Lead(needsComma);
      s := MaybeComma();
      if s.IsFailure() {
        WroteStopped(start, View(), lead, Quote(key) + ":");
        assert lead + (Quote(key) + ":") == lead + Quote(key) + ":";
        return;
      }
      ghost var mid := View();
      s := AppendEscaped(key);
      WroteThen(start, mid, View(), lead, Quote(key));
      if s.IsFailure() {
        WroteStopped(start, View(), lead + Quote(key), ":");
        return;
      }
      needsComma := false;
      mid := View();
      s := AppendChar(':');
      WroteThen(start, mid, View(), lead + Quote(key), ":");
    }

    method String(value: CString) returns (s: Status)
      requires Valid()
      modifies Repr
      ensures Valid() && fresh(Repr - old(Repr))
      ensures Wrote(old(View()), View(), Lead(old(needsComma)) + Quote(value))
      ensures s.Ok? <==> !error
      ensures !error ==> needsComma
    {
      ghost var start := View();
      ghost var lead := Lead(needsComma);
      s := MaybeComma();
      if s.IsFailure() {
        WroteStopped(start, View(), lead, Quote(value));
        return;
      }
      needsComma := true;
      ghost var mid := View();
      s := AppendEscaped(value);
      WroteThen(start, mid, View(), lead, Quote(value));
    }

    /** A comma if one is due, then the text a number or literal prints as. If the scratch
        buffer cannot hold that text the call fails after the comma, without the sticky flag. */
    method Scalar(text: string) returns (s: Status)
      requires Valid()
      modifies Repr
      ensures Valid() && fresh(Repr - old(Repr))
      ensures |text| < SCRATCH_SIZE ==>
                && Wrote(old(View()), View(), Lead(old(needsComma)) + text)
                && (s.Ok? <==> !error)
                && (!error ==> needsComma)
      ensures |text| >= SCRATCH_SIZE ==>
                && Wrote(old(View()), View(), Lead(old(needsComma)))
                && s.IsFailure() && needsComma == old(needsComma)
    {
      ghost var start := View();
      ghost var lead := Lead(needsComma);
      s := MaybeComma();
      if s.IsFailure() {
        WroteStopped(start, View(), lead, text);
        return;
      }
      if |text| >= SCRATCH_SIZE {
        return JsonOverflow;
      }
      needsComma := true;
      ghost var mid := View();
      s := Append(text);
      WroteThen(start, mid, View(), lead, text);
    }

    /** Both integer emitters: every 64-bit value prints within the scratch buffer. */
    method Int(value: Integer) returns (s: Status)
      requires Valid()
      modifies Repr
      ensures Valid() && fresh(Repr - old(Repr))
      ensures Wrote(old(View()), View(), Lead(old(needsComma)) + IntText(value))
      ensures s.Ok? <==> !error
      ensures !error ==> needsComma
    {
      IntTextFits(value);
      s := Scalar(IntText(value));
    }

    method Double(minus: bool, hundredths: nat) returns (s: Status)
      requires Valid()
      modifies Repr
      ensures Valid() && fresh(Repr - old(Repr))
      ensures |DecText(minus, hundredths)| < SCRATCH_SIZE ==>
                && Wrote(old(View()), View(), Lead(old(needsComma)) + DecText(minus, hundredths))
                && (s.Ok? <==> !error)
                && (!error ==> needsComma)
      ensures |DecText(minus, hundredths)| >= SCRATCH_SIZE ==>
                && Wrote(old(View()), View(), Lead(old(needsComma)))
                && s.IsFailure() && needsComma == old(needsComma)
    {
      s := Scalar(DecText(minus, hundredths));
    }

    method Bool(value: bool) returns (s: Status)
      requires Valid()
      modifies Repr
      ensures Valid() && fresh(Repr - old(Repr))
      ensures Wrote(old(View()), View(), Lead(old(needsComma)) + (if value then "true" else "false"))
      ensures s.Ok? <==> !error
      ensures !error ==> needsComma
    {
      s := Scalar(if value then "true" else "false");
    }
  }

  lemma EscapeCharFits(c: char)
    ensures |EscapeChar(c)| < SCRATCH_SIZE
  {
  }

  /** The quoted string up to the first `i` characters, and what is left of it. */
  ghost function Opened(str: string, i: nat): string
    requires i <= |str|
  {
    "\"" + Escape(str[..i])
  }

  ghost function Remaining(str: string, i: nat): string
    requires i <= |str|
  {
    Escape(str[i..]) + "\""
  }

  lemma QuoteStep(str: string, i: nat)
    requires i < |str|
    ensures Opened(str, i + 1) == Opened(str, i) + EscapeChar(str[i])
  {
    assert str[..i + 1] == str[..i] + [str[i]];
    EscapeConcat(str[..i], [str[i]]);
    assert Escape([str[i]]) == EscapeChar(str[i]);
  }

  lemma QuoteSplit(str: string, i: nat)
    requires i <= |str|
    ensures Quote(str) == Opened(str, i) + Remaining(str, i)
    ensures i == 0 ==> Opened(str, i) == "\""
    ensures i == |str| ==> Remaining(str, i) == "\""
  {
    assert str == str[..i] + str[i..];
    EscapeConcat(str[..i], str[i..]);
    Quoted(Escape(str[..i]), Escape(str[i..]));
    assert i == 0 ==> str[..i] == "";
    assert i == |str| ==> str[i..] == "";
    assert Escape("") == "";
    hide Escape;
  }

  lemma Quoted(a: string, b: string)
    ensures "\"" + (a + b) + "\"" == ("\"" + a) + (b + "\"")
  {
  }

  lemma IntTextFits(value: Integer)
    ensures |IntText(value)| <= 21
  {
    assert Pow10(10) == 10000000000;
    assert Pow10(20) == 100000000000000000000;
    NatTextLength(if value < 0 then -value else value, 20);
  }
}
