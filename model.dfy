/** The entities the allocation engine matches: vehicle categories, spot sizes,
    vehicles, and the parking spots whose occupancy flag is updated in place. */
module Model {

  /** Vehicle categories. */
  datatype TipoVeiculo = Moto | Carro | Van

  /** Spot sizes. A Van has no size of its own: it needs a Grande spot or three Carro spots. */
  datatype VagaTamanho = Moto | Carro | Grande

  /** A vehicle only carries its category; it is never changed after construction. */
  datatype Veiculo = Veiculo(tipo: TipoVeiculo)

  /** The observable state of one spot at one moment. */
  datatype VagaState = VagaState(tamanho: VagaTamanho, ocupada: bool)

  /** A parking spot. Its size is set at construction; its occupancy flag is set by allocation. */
  class Vaga {
    var tamanho: VagaTamanho
    var ocupada: bool

    /** A new spot keeps the size it was given and starts free. */
    constructor (tamanho: VagaTamanho)
      ensures State() == VagaState(tamanho, false)
    {
      this.tamanho := tamanho;
      ocupada := false;
    }

    function State(): VagaState
      reads this
    {
      VagaState(tamanho, ocupada)
    }
  }

  /** The states of a list of spots, position by position. */
  function States(vagas: seq<Vaga>): (r: seq<VagaState>)
    reads vagas
    ensures |r| == |vagas|
    ensures forall i :: 0 <= i < |vagas| ==> r[i] == vagas[i].State()
  {
    seq(|vagas|, i reads vagas requires 0 <= i < |vagas| => vagas[i].State())
  }

  /** No element occurs twice; stated recursively so that the solver only
      unfolds it on demand (see `DistinctAt`). */
  predicate Distinct<T(==)>(s: seq<T>)
    decreases |s|
  {
    s == [] || (s[|s| - 1] !in s[..|s| - 1] && Distinct(s[..|s| - 1]))
  }

  /** Two positions of a duplicate-free list holding the same element coincide. */
  lemma {:induction false} DistinctAt<T>(s: seq<T>, i: nat, j: nat)
    requires Distinct(s) && i < |s| && j < |s| && s[i] == s[j]
    ensures i == j
    decreases |s|
  {
    var n := |s| - 1;
    if i != n && j != n {
      DistinctAt(s[..n], i, j);
    }
  }

  /** Appending an element not yet in a duplicate-free list keeps it duplicate-free. */
  lemma DistinctSnoc<T>(s: seq<T>, x: T)
    requires Distinct(s) && x !in s
    ensures Distinct(s + [x])
  {
    assert (s + [x])[..|s|] == s;
  }

  /** Joining two duplicate-free lists with no element in common gives a duplicate-free list. */
  lemma {:induction false} DistinctAppend<T>(a: seq<T>, b: seq<T>)
    requires Distinct(a) && Distinct(b)
    requires forall k :: 0 <= k < |b| ==> b[k] !in a
    ensures Distinct(a + b)
    decreases |b|
  {
    if b == [] {
      assert a + b == a;
    } else {
      var n := |b| - 1;
      DistinctAppend(a, b[..n]);
      DistinctSnoc(a + b[..n], b[n]);
      assert a + b == a + b[..n] + [b[n]];
    }
  }
}
