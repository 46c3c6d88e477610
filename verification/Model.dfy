/**
 The data shared by the agent and the server (internal/model/metrics.go), with
 Go's int64 and float64 modelled as far as the program looks at them.
 */
module Model {
  datatype Option<+T> = None | Some(value: T)

  type Byte = x: int | 0 <= x < 256
  type Bytes = seq<Byte>

  const TWO_TO_THE_64: int := 0x1_0000_0000_0000_0000
  const INT64_MIN: int := -0x8000_0000_0000_0000
  const INT64_MAX: int := 0x7FFF_FFFF_FFFF_FFFF

  type Int64 = x: int | INT64_MIN <= x <= INT64_MAX

  /** Reduction to signed 64 bits: what Go's int64 addition does on overflow. */
  function Wrap64(x: int): Int64
    decreases if x < 0 then -2 * x else 2 * x + 1
  {
    if x < INT64_MIN then Wrap64(x + TWO_TO_THE_64)
    else if x > INT64_MAX then Wrap64(x - TWO_TO_THE_64)
    else x
  }

  /** The result differs from x by a multiple of 2^64, and is x itself when x fits. */
  lemma {:induction false} WrapMeaning(x: int) returns (turns: int)
    ensures x == Wrap64(x) + turns * TWO_TO_THE_64
    ensures INT64_MIN <= x <= INT64_MAX ==> Wrap64(x) == x
    decreases if x < 0 then -2 * x else 2 * x + 1
  {
    if x < INT64_MIN {
      turns := WrapMeaning(x + TWO_TO_THE_64);
      turns := turns - 1;
    } else if x > INT64_MAX {
      turns := WrapMeaning(x - TWO_TO_THE_64);
      turns := turns + 1;
    } else {
      turns := 0;
    }
  }

  /** Numbers that differ by a multiple of 2^64 wrap to the same int64. */
  lemma {:induction false} WrapPeriodic(x: Int64, turns: int)
    ensures Wrap64(x + turns * TWO_TO_THE_64) == x
    decreases if turns < 0 then -turns else turns
  {
    if turns > 0 {
      WrapPeriodic(x, turns - 1);
    } else if turns < 0 {
      WrapPeriodic(x, turns + 1);
    }
  }

  /** Wrapping early or late makes no difference to a sum. */
  lemma WrapAdd(x: int, y: int)
    ensures Wrap64(Wrap64(x) + y) == Wrap64(x + y)
  {
    var k := WrapMeaning(x);
    var j := WrapMeaning(Wrap64(x) + y);
    WrapPeriodic(Wrap64(Wrap64(x) + y), j + k);
  }

  /**
   A float64 as its IEEE 754 fields. Gauges are only stored, copied and encoded, so no
   arithmetic is needed; what matters is whether encoding/json can write the value.
   */
  datatype Float64 = Float64(negative: bool, exponent: nat, fraction: nat) {
    /** Neither an infinity nor a NaN. */
    predicate Finite() {
      exponent < 2047
    }
  }

  const ZERO_FLOAT := Float64(false, 0, 0)

  /** A string in Go: the two named constants, and every other string. */
  datatype MetricType = Counter | Gauge | Other(name: string)

  /** The universal DTO. Delta and value are pointers in Go: None is a missing value. */
  datatype Metric = Metric(id: string, mtype: MetricType, delta: Option<Int64>, value: Option<Float64>, hash: string) {
    predicate KnownType() {
      !mtype.Other?
    }

    /** encoding/json refuses a metric whose value is an infinity or a NaN. */
    predicate Encodable() {
      value.Some? ==> value.value.Finite()
    }
  }

  function GaugeMetric(name: string, v: Float64): Metric {
    Metric(name, Gauge, None, Some(v), "")
  }

  function CounterMetric(name: string, d: Int64): Metric {
    Metric(name, Counter, Some(d), None, "")
  }
}
