/** Types shared by the models. */
module Common {

  datatype Option<T> = None | Some(value: T)

  type byte = b: int | 0 <= b < 256

  function Concat(chunks: seq<seq<byte>>): seq<byte> {
    if chunks == [] then [] else chunks[0] + Concat(chunks[1..])
  }

  // ----- decimal numbers -----

  predicate AreDigits(ds: seq<nat>) {
    forall i :: 0 <= i < |ds| ==> ds[i] < 10
  }

  /** The decimal digits of a number, most significant first. */
  function Digits(n: nat): (ds: seq<nat>)
    ensures ds != [] && AreDigits(ds)
  {
    (if n < 10 then [] else Digits(n / 10)) + [n % 10]
  }

  function Number(ds: seq<nat>): nat {
    if ds == [] then 0 else Number(ds[..|ds| - 1]) * 10 + ds[|ds| - 1]
  }

  /** Digits are read back as the number they were written for. */
  lemma {:induction false} NumberOfDigits(n: nat)
    ensures Number(Digits(n)) == n
  {
    var front := if n < 10 then [] else Digits(n / 10);
    if n >= 10 {
      NumberOfDigits(n / 10);
    }
    assert Digits(n)[..|front|] == front;
  }

  function Zeros(k: nat): seq<nat> {
    seq(k, _ => 0)
  }

  lemma {:induction false} NumberAfterZeros(k: nat, ds: seq<nat>)
    ensures Number(Zeros(k) + ds) == Number(ds)
    decreases |ds|, k
  {
    if ds == [] {
      if k > 0 {
        NumberAfterZeros(k - 1, ds);
        assert (Zeros(k) + ds)[..k - 1] == Zeros(k - 1) + ds;
      }
    } else {
      var n := |ds| - 1;
      NumberAfterZeros(k, ds[..n]);
      assert (Zeros(k) + ds)[..k + n] == Zeros(k) + ds[..n];
    }
  }
}
