/** The demonstration run: ten spots (Carro, Carro, Grande, six Carro, Moto), all
    free, receive a Carro, a Van, a Moto, a Van and a Carro in that order; the
    occupancy queries then report seven occupied and three free spots. */
module Scenario {
  import opened Model
  import opened Specification
  import opened Filtering
  import opened Policy
  import opened Parking

  /** The size of the demo's spot at position i: Grande at 2, Moto at 9, Carro elsewhere. */
  function TamanhoDe(i: nat): VagaTamanho
  {
    if i == 2 then Grande else if i == 9 then VagaTamanho.Moto else VagaTamanho.Carro
  }

  /** The demo's ten spots with exactly the positions in `ocupadas` occupied. */
  function Lote(ocupadas: set<nat>): (r: seq<VagaState>)
    ensures |r| == 10
    ensures forall i :: 0 <= i < 10 ==> r[i] == VagaState(TamanhoDe(i), i in ocupadas)
  {
    seq(10, i requires 0 <= i < 10 => VagaState(TamanhoDe(i), i in ocupadas))
  }

  /** Marking a spot of the demo's lot adds its position to the occupied ones. */
  lemma MarkLote(ocupadas: set<nat>, i: nat)
    requires i < 10
    ensures Mark(Lote(ocupadas), i) == Lote(ocupadas + {i})
  {
  }

  function Inicial(): seq<VagaState> { Lote({}) }
  function Apos1(): seq<VagaState> { Lote({0}) }
  function Apos2(): seq<VagaState> { Lote({0, 2}) }
  function Apos3(): seq<VagaState> { Lote({0, 2, 9}) }
  function Apos4(): seq<VagaState> { Lote({0, 1, 2, 3, 4, 9}) }
  function Final(): seq<VagaState> { Lote({0, 1, 2, 3, 4, 5, 9}) }

  /** The first Carro takes the first free Carro spot, position 0. */
  lemma Passo1()
    ensures Alocar(Inicial(), TipoVeiculo.Carro) == Mark(Inicial(), 0) == Apos1()
  {
    CarroPolicy(Inicial());
    assert FirstFree(Inicial(), VagaTamanho.Carro, 0);
    MarkLote({}, 0);
  }

  /** The first Van takes the only Grande spot, position 2. */
  lemma Passo2()
    ensures Alocar(Apos1(), Van) == Mark(Apos1(), 2) == Apos2()
  {
    VanPolicy(Apos1());
    assert FirstFree(Apos1(), Grande, 2);
    MarkLote({0}, 2);
  }

  /** The Moto takes the only Moto spot, position 9. */
  lemma Passo3()
    ensures Alocar(Apos2(), TipoVeiculo.Moto) == Mark(Apos2(), 9) == Apos3()
  {
    MotoPolicy(Apos2());
    assert FirstFree(Apos2(), VagaTamanho.Moto, 9);
    MarkLote({0, 2}, 9);
  }

  /** The second Van finds no Grande spot and takes the first three free Carro
      spots, positions 1, 3 and 4. */
  lemma Passo4()
    ensures Alocar(Apos3(), Van) == Occupy(Apos3(), [1, 3, 4]) == Apos4()
  {
    var s := Apos3();
    assert NoneFree(s, Grande);
    assert FirstThreeFree(s, VagaTamanho.Carro, 1, 3, 4);
    VanFirstThree(s, 1, 3, 4);
  }

  /** The second Carro takes the first free Carro spot left, position 5. */
  lemma Passo5()
    ensures Alocar(Apos4(), TipoVeiculo.Carro) == Mark(Apos4(), 5) == Final()
  {
    CarroPolicy(Apos4());
    assert FirstFree(Apos4(), VagaTamanho.Carro, 5);
    MarkLote({0, 1, 2, 3, 4, 9}, 5);
  }

  /** The five allocations of the demo in order lead from the all-free lot to the
      final one. */
  lemma DemoAllocations()
    ensures Alocar(Alocar(Alocar(Alocar(Alocar(Inicial(), TipoVeiculo.Carro), Van),
              TipoVeiculo.Moto), Van), TipoVeiculo.Carro) == Final()
  {
    Passo1();
    Passo2();
    Passo3();
    Passo4();
    Passo5();
  }

  /** Before any vehicle arrives, no spot is occupied. */
  lemma InicialVazio()
    ensures CountOcupadas(Inicial()) == 0
  {
    MatchingExact(Inicial(), Is(Ocupado(true)), []);
  }

  /** Each single-spot allocation of the demo adds one occupied spot. */
  lemma ContaUm()
    ensures CountOcupadas(Apos1()) == CountOcupadas(Inicial()) + 1
    ensures CountOcupadas(Apos2()) == CountOcupadas(Apos1()) + 1
    ensures CountOcupadas(Apos3()) == CountOcupadas(Apos2()) + 1
    ensures CountOcupadas(Final()) == CountOcupadas(Apos4()) + 1
  {
    MarkCount(Inicial(), 0);
    MarkLote({}, 0);
    assert {} + {0} == {0};
    MarkCount(Apos1(), 2);
    MarkLote({0}, 2);
    assert {0} + {2} == {0, 2};
    MarkCount(Apos2(), 9);
    MarkLote({0, 2}, 9);
    assert {0, 2} + {9} == {0, 2, 9};
    MarkCount(Apos4(), 5);
    MarkLote({0, 1, 2, 3, 4, 9}, 5);
    assert {0, 1, 2, 3, 4, 9} + {5} == {0, 1, 2, 3, 4, 5, 9};
  }

  /** The second Van's allocation adds three occupied spots. */
  lemma ContaTres()
    ensures CountOcupadas(Apos4()) == CountOcupadas(Apos3()) + 3
  {
    OccupyCount(Apos3(), [1, 3, 4]);
    assert Occupy(Apos3(), [1, 3, 4]) == Apos4();
  }

  /** What the demo reports afterwards: seven spots occupied and three free, and the
      lot is neither full nor empty. */
  lemma DemoCounts()
    ensures CountOcupadas(Final()) == 7 && CountLivres(Final()) == 3
    ensures !(forall i :: 0 <= i < |Final()| ==> Final()[i].ocupada)
    ensures !(forall i :: 0 <= i < |Final()| ==> !Final()[i].ocupada)
  {
    InicialVazio();
    ContaUm();
    ContaTres();
    OcupadasPlusLivres(Final());
    assert Final()[0].ocupada && !Final()[6].ocupada;
  }

  /** The demo reports one occupied Moto spot: position 9. */
  lemma DemoMotos()
    ensures |Matching(Final(), And(Is(Tamanho(VagaTamanho.Moto)), Is(Ocupado(true))))| == 1
  {
    MatchingExact(Final(), And(Is(Tamanho(VagaTamanho.Moto)), Is(Ocupado(true))), [9]);
  }

  /** The demo reports five occupied Carro spots: positions 0, 1, 3, 4 and 5. */
  lemma DemoCarros()
    ensures |Matching(Final(), And(Is(Tamanho(VagaTamanho.Carro)), Is(Ocupado(true))))| == 5
  {
    MatchingExact(Final(), And(Is(Tamanho(VagaTamanho.Carro)), Is(Ocupado(true))), [0, 1, 3, 4, 5]);
  }

  /** The demo reports one occupied Grande spot: position 2. */
  lemma DemoGrandes()
    ensures |Matching(Final(), And(Is(Tamanho(Grande)), Is(Ocupado(true))))| == 1
  {
    MatchingExact(Final(), And(Is(Tamanho(Grande)), Is(Ocupado(true))), [2]);
  }

  /** A further Van after the demo finds no Grande spot but three free Carro spots,
      6, 7 and 8, and takes them. */
  lemma SextaVan()
    ensures Alocar(Final(), Van) == Occupy(Final(), [6, 7, 8])
  {
    var s := Final();
    assert NoneFree(s, Grande);
    assert FirstThreeFree(s, VagaTamanho.Carro, 6, 7, 8);
    VanFirstThree(s, 6, 7, 8);
  }

  /** Taking those three spots fills the lot. */
  lemma SextaVanLotada()
    ensures forall i :: 0 <= i < |Final()| ==> Occupy(Final(), [6, 7, 8])[i].ocupada
  {
    var r := Occupy(Final(), [6, 7, 8]);
    forall i | 0 <= i < |Final()| ensures r[i].ocupada {
      assert i in [6, 7, 8] || i in {0, 1, 2, 3, 4, 5, 9};
    }
  }

  /** The demo run on objects: ten fresh spots, a facility over them, the five
      vehicles placed in order, then the occupancy queries counted. */
  method Demo() returns (ocupadas: nat, livres: nat, motos: nat, carros: nat, grandes: nat)
    ensures ocupadas == 7 && livres == 3
    ensures motos == 1 && carros == 5 && grandes == 1
  {
    var e := NovoEstacionamento();
    e.OcuparVaga(Veiculo(TipoVeiculo.Carro));
    e.OcuparVaga(Veiculo(Van));
    e.OcuparVaga(Veiculo(TipoVeiculo.Moto));
    e.OcuparVaga(Veiculo(Van));
    e.OcuparVaga(Veiculo(TipoVeiculo.Carro));
    DemoAllocations();
    DemoCounts();
    DemoMotos();
    DemoCarros();
    DemoGrandes();
    ocupadas := |e.VagasOcupadas(Is(Ocupado(true)))|;
    livres := |e.VagasOcupadas(Is(Ocupado(false)))|;
    motos := |e.VagasOcupadas(And(Is(Tamanho(VagaTamanho.Moto)), Is(Ocupado(true))))|;
    carros := |e.VagasOcupadas(And(Is(Tamanho(VagaTamanho.Carro)), Is(Ocupado(true))))|;
    grandes := |e.VagasOcupadas(And(Is(Tamanho(Grande)), Is(Ocupado(true))))|;
  }

  /** Five fresh free spots with the demo's sizes for positions `inicio` to `inicio + 4`. */
  method CincoVagas(inicio: nat) returns (vs: seq<Vaga>)
    ensures |vs| == 5 && Distinct(vs)
    ensures forall k :: 0 <= k < 5 ==> fresh(vs[k])
    ensures forall k :: 0 <= k < 5 ==> vs[k].State() == VagaState(TamanhoDe(inicio + k), false)
  {
    var v1 := new Vaga(TamanhoDe(inicio));
    var v2 := new Vaga(TamanhoDe(inicio + 1));
    var v3 := new Vaga(TamanhoDe(inicio + 2));
    var v4 := new Vaga(TamanhoDe(inicio + 3));
    var v5 := new Vaga(TamanhoDe(inicio + 4));
    vs := [v1, v2, v3, v4, v5];
    ghost var p: seq<Vaga> := [];
    DistinctSnoc(p, v1);
    p := p + [v1];
    DistinctSnoc(p, v2);
    p := p + [v2];
    DistinctSnoc(p, v3);
    p := p + [v3];
    DistinctSnoc(p, v4);
    p := p + [v4];
    DistinctSnoc(p, v5);
    p := p + [v5];
    assert p == vs;
  }

  /** The demo's facility: ten fresh spots in the demo's order, all free. */
  method NovoEstacionamento() returns (e: Estacionamento)
    ensures fresh(e) && fresh(e.vagas) && e.Valid() && e.Estado() == Inicial()
  {
    var a := CincoVagas(0);
    var b := CincoVagas(5);
    DistinctAppend(a, b);
    var vs := a + b;
    e := new Estacionamento(vs);
    assert e.Estado() == Inicial() by {
      forall k | 0 <= k < 10 ensures e.Estado()[k] == Inicial()[k] {
        if k >= 5 {
          assert vs[k] == b[k - 5];
        }
      }
    }
  }
}
