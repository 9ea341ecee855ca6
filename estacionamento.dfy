/** The facility: an ordered list of spot objects, the query that filters it, and
    the allocation that marks the chosen spot(s) occupied in place. */
module Parking {
  import opened Model
  import opened Specification
  import opened Filtering
  import opened Policy

  class Estacionamento {
    const vagas: seq<Vaga>

    /** No spot object appears twice in the facility's list. */
    ghost predicate Valid()
      reads this
    {
      Distinct(vagas)
    }

    /** The state of every spot, in list order. */
    function Estado(): seq<VagaState>
      reads this, vagas
    {
      States(vagas)
    }

    constructor (vagas: seq<Vaga>)
      requires Distinct(vagas)
      ensures this.vagas == vagas && Valid()
    {
      this.vagas := vagas;
    }

    /** The spots satisfying `spec`: exactly those, in list order; nothing is changed. */
    function VagasOcupadas(spec: Spec<VagaAtom>): (r: seq<Vaga>)
      reads this, vagas
      ensures forall v :: v in r ==> v in vagas && Accepts(spec, v.State())
      ensures var m := Matching(Estado(), spec);
        |r| == |m| && forall k :: 0 <= k < |r| ==> r[k] == vagas[m[k]]
    {
      Filter(vagas, spec)
    }

    /** Places a vehicle: the spots afterwards are exactly those the category's plan
        gives (`Alocar`, whose properties are proved in `Policy`); the list itself,
        and so its freedom from duplicates, is unchanged. */
    method OcuparVaga(veiculo: Veiculo)
      requires Valid()
      modifies vagas
      ensures Valid()
      ensures Estado() == Alocar(old(Estado()), veiculo.tipo)
    {
      ghost var s0 := Estado();
      AlocarSteps(s0);
      match veiculo.tipo
      case Van =>
        var ok := OcuparPrimeira(Grande);
        if !ok {
          OcuparTres();
        }
      case Carro =>
        var ok := OcuparPrimeira(VagaTamanho.Carro);
        if !ok {
          ok := OcuparPrimeira(Grande);
        }
      case Moto =>
        var ok := OcuparPrimeira(VagaTamanho.Moto);
        if !ok {
          ok := OcuparPrimeira(VagaTamanho.Carro);
          if !ok {
            ok := OcuparPrimeira(Grande);
          }
        }
    }

    /** Marks one spot of the facility occupied: the spot at position i, and no
        other, changes. */
    method Ocupar(v: Vaga, ghost i: nat)
      requires Valid() && i < |vagas| && vagas[i] == v
      modifies vagas
      ensures Estado() == Mark(old(Estado()), i)
    {
      v.ocupada := true;
      forall j | 0 <= j < |vagas| && vagas[j] == v ensures j == i {
        DistinctAt(vagas, j, i);
      }
    }

    /** One single-spot step of the fallback chain (filter by "size t and free",
        then mark the first result): succeeds exactly when a spot of size t is free,
        and then marks the first such spot in list order; otherwise changes nothing. */
    method OcuparPrimeira(t: VagaTamanho) returns (ok: bool)
      requires Valid()
      modifies vagas
      ensures ok == Cabe(old(Estado()), Step(t, 1))
      ensures Estado() == if ok then Executar(old(Estado()), Step(t, 1)) else old(Estado())
    {
      ghost var s0 := Estado();
      var livres := VagasOcupadas(Livre(t));
      ok := |livres| > 0;
      if ok {
        ghost var m := Matching(s0, Livre(t));
        Ocupar(livres[0], m[0]);
        OccupyOne(s0, m);
      }
    }

    /** The Van's second step: when at least three Carro spots are free, the first
        three in list order are marked occupied, one by one; otherwise nothing changes. */
    method OcuparTres()
      requires Valid()
      modifies vagas
      ensures var tres := Step(VagaTamanho.Carro, 3);
        Estado() == if Cabe(old(Estado()), tres) then Executar(old(Estado()), tres) else old(Estado())
    {
      ghost var s0 := Estado();
      var livres := VagasOcupadas(Livre(VagaTamanho.Carro));
      ghost var m := Matching(s0, Livre(VagaTamanho.Carro));
      if |livres| >= 3 {
        var count := 0;
        var i := 0;
        while i < |livres|
          invariant 0 <= i < 3 && count == i
          invariant |livres| == |m| && |s0| == |vagas|
          invariant forall k :: 0 <= k < |m| ==> m[k] < |vagas| && livres[k] == vagas[m[k]]
          invariant Estado() == Occupy(s0, m[..i])
        {
          Ocupar(livres[i], m[i]);
          OccupyNext(s0, m, i);
          count := count + 1;
          if count == 3 {
            break;
          }
          i := i + 1;
        }
      }
    }
  }
}
