/** Composable tests over one kind of entity: the atomic tests on spots and on
    vehicles, and their conjunction. */
module Specification {
  import opened Model

  /** A test built from atoms of type A; `And` is the conjunction of two tests on
      the same kind of entity. */
  datatype Spec<A> = Is(atom: A) | And(first: Spec<A>, second: Spec<A>)

  /** Atomic tests on a spot: its size equals a given size, its occupancy equals a given flag. */
  datatype VagaAtom = Tamanho(tamanho: VagaTamanho) | Ocupado(ocupado: bool)

  /** An atom holds of a spot exactly when it is one of the spot's own two atoms:
      its size, or its occupancy flag. */
  function VagaAtomHolds(a: VagaAtom, v: VagaState): (r: bool)
    ensures r <==> a == Tamanho(v.tamanho) || a == Ocupado(v.ocupada)
  {
    match a
    case Tamanho(t) => t == v.tamanho
    case Ocupado(b) => b == v.ocupada
  }

  /** Atomic test on a vehicle: its category equals a given category. */
  datatype VeiculoAtom = Tipo(tipo: TipoVeiculo)

  /** A category atom holds of a vehicle exactly when it names the vehicle's own category. */
  function VeiculoAtomHolds(a: VeiculoAtom, v: Veiculo): (r: bool)
    ensures r <==> a == Tipo(v.tipo)
  {
    a.tipo == v.tipo
  }

  /** The atoms a test is built from, left to right. */
  function Atoms<A>(spec: Spec<A>): seq<A>
  {
    match spec
    case Is(a) => [a]
    case And(p, q) => Atoms(p) + Atoms(q)
  }

  /** A spot test applied to a spot: an atom is checked against the spot, a
      conjunction holds when both parts hold. However the conjunctions are nested,
      a test accepts a spot exactly when every one of its atoms holds of it. A spot
      test cannot be applied to a vehicle. */
  function Accepts(spec: Spec<VagaAtom>, v: VagaState): (r: bool)
    ensures r <==> forall a :: a in Atoms(spec) ==> VagaAtomHolds(a, v)
  {
    match spec
    case Is(a) => VagaAtomHolds(a, v)
    case And(p, q) => Accepts(p, v) && Accepts(q, v)
  }

  /** A vehicle test applied to a vehicle: it accepts exactly when every atom of
      the test names the vehicle's category. */
  function AcceptsVeiculo(spec: Spec<VeiculoAtom>, v: Veiculo): (r: bool)
    ensures r <==> forall a :: a in Atoms(spec) ==> a == Tipo(v.tipo)
  {
    match spec
    case Is(a) =>
      assert a in Atoms(spec);
      VeiculoAtomHolds(a, v)
    case And(p, q) =>
      assert forall a :: a in Atoms(spec) <==> a in Atoms(p) || a in Atoms(q);
      AcceptsVeiculo(p, v) && AcceptsVeiculo(q, v)
  }

  /** The test the allocation uses for every candidate: the given size and not occupied. */
  function Livre(t: VagaTamanho): Spec<VagaAtom>
  {
    And(Is(Tamanho(t)), Is(Ocupado(false)))
  }

  lemma LivreMeans(t: VagaTamanho, v: VagaState)
    ensures Accepts(Livre(t), v) <==> v.tamanho == t && !v.ocupada
  {
  }

  /** A category test accepts exactly the vehicles of that category, and a
      conjunction of two category tests accepts only when both categories agree. */
  lemma TipoMeans(t: TipoVeiculo, u: TipoVeiculo, v: Veiculo)
    ensures AcceptsVeiculo(Is(Tipo(t)), v) <==> v.tipo == t
    ensures AcceptsVeiculo(And(Is(Tipo(t)), Is(Tipo(u))), v) <==> v.tipo == t && t == u
  {
  }
}
