/** The byte alphabet of mulTTY: the control codes it gives a meaning to,
    escape styles as 32-bit masks, and sequence helpers shared by all modules. */
module Bytes {

  type byte = bv8

  // The identity of a program, by which the table is keyed.
  type Key = seq<byte>

  datatype Option<+T> = None | Some(value: T)

  const NUL: byte := 0x00
  const SOH: byte := 0x01
  const SO: byte := 0x0e
  const SI: byte := 0x0f
  const DLE: byte := 0x10
  const PSW: byte := 0x14
  const US: byte := 0x1f

  // Escape styles: bit c is set when control code c is escaped.
  const ESC_BINARY: bv32 := 0xffff_ffff
  const ESC_ASCII: bv32 := 0xf3ff_007e
  const ESC_MIXED: bv32 := 0xf3ff_007f

  // The constant PIPE_BUF of the platform: POSIX guarantees at least 512.
  type PipeSize = n: nat | n >= 512 witness 512
  const PIPE_BUF: PipeSize

  lemma Assoc<T>(a: seq<T>, b: seq<T>, c: seq<T>)
    ensures a + (b + c) == a + b + c
  {}

  function Flatten<T>(parts: seq<seq<T>>): seq<T> {
    if parts == [] then [] else parts[0] + Flatten(parts[1..])
  }

  lemma FlattenCons<T>(x: seq<T>, parts: seq<seq<T>>)
    ensures Flatten([x] + parts) == x + Flatten(parts)
  {
    assert ([x] + parts)[1..] == parts;
  }

  lemma {:induction false} FlattenConcat<T>(a: seq<seq<T>>, b: seq<seq<T>>)
    ensures Flatten(a + b) == Flatten(a) + Flatten(b)
  {
    if a == [] {
      assert a + b == b;
    } else {
      FlattenConcat(a[1..], b);
      assert (a + b)[1..] == a[1..] + b;
      Assoc(a[0], Flatten(a[1..]), Flatten(b));
    }
  }
}
