/** The allocation policy as a value-level reference definition: each vehicle
    category has an ordered plan of (spot size, number of spots) steps; the first
    step that finds enough free spots of its size occupies the first ones in list
    order, and a plan that runs out changes nothing. */
module Policy {
  import opened Model
  import opened Specification
  import opened Filtering

  /** Marks the spot at position i occupied: that spot keeps its size and is now
      occupied, every other spot is as it was. */
  function Mark(s: seq<VagaState>, i: nat): (r: seq<VagaState>)
    requires i < |s|
    ensures |r| == |s| && r[i] == VagaState(s[i].tamanho, true)
    ensures forall j :: 0 <= j < |s| && j != i ==> r[j] == s[j]
  {
    s[i := s[i].(ocupada := true)]
  }

  /** Marks the spots at the given positions occupied, one after the other. */
  function Occupy(s: seq<VagaState>, idx: seq<nat>): (r: seq<VagaState>)
    requires forall k :: 0 <= k < |idx| ==> idx[k] < |s|
    ensures |r| == |s|
    ensures forall i :: 0 <= i < |s| ==> r[i] == if i in idx then s[i].(ocupada := true) else s[i]
    decreases |idx|
  {
    if idx == [] then s
    else Mark(Occupy(s, idx[..|idx| - 1]), idx[|idx| - 1])
  }

  /** One step of a plan: how many free spots of which size it needs. */
  datatype Step = Step(tamanho: VagaTamanho, quantas: nat)

  /** The fallback chain of each vehicle category: two or three steps, each needing
      at least one spot; only the Van's three-Carro-spot step needs more than one. */
  function Plano(tipo: TipoVeiculo): (r: seq<Step>)
    ensures 2 <= |r| <= 3
    ensures forall k :: 0 <= k < |r| ==> 1 <= r[k].quantas
    ensures forall k :: 0 <= k < |r| && r[k].quantas != 1 ==> tipo == Van && r[k] == Step(VagaTamanho.Carro, 3)
  {
    match tipo
    case Moto => [Step(VagaTamanho.Moto, 1), Step(VagaTamanho.Carro, 1), Step(Grande, 1)]
    case Carro => [Step(VagaTamanho.Carro, 1), Step(Grande, 1)]
    case Van => [Step(Grande, 1), Step(VagaTamanho.Carro, 3)]
  }

  /** A step can be carried out when enough spots of its size are free; a
      single-spot step, exactly when some spot of its size is free. */
  function Cabe(s: seq<VagaState>, st: Step): (r: bool)
    ensures st.quantas == 1 ==> (r <==> exists i :: 0 <= i < |s| && IsFree(s[i], st.tamanho))
  {
    LivreIsFree(st.tamanho);
    var m := Matching(s, Livre(st.tamanho));
    assert |m| > 0 ==> IsFree(s[m[0]], st.tamanho);
    assert forall i :: 0 <= i < |s| && IsFree(s[i], st.tamanho) ==> i in m;
    |m| >= st.quantas
  }

  /** Carrying out a step occupies the first free spots of its size, in list order:
      only free spots of that size change, and they become occupied. */
  function Executar(s: seq<VagaState>, st: Step): (r: seq<VagaState>)
    requires Cabe(s, st)
    ensures |r| == |s|
    ensures forall i :: 0 <= i < |s| ==>
      r[i] == s[i] || (IsFree(s[i], st.tamanho) && r[i] == VagaState(st.tamanho, true))
  {
    LivreIsFree(st.tamanho);
    Occupy(s, Matching(s, Livre(st.tamanho))[..st.quantas])
  }

  /** A step that needs at least one spot changes something when it is carried out. */
  lemma ExecutarChanges(s: seq<VagaState>, st: Step)
    requires Cabe(s, st) && 1 <= st.quantas
    ensures Executar(s, st) != s
  {
    var m := Matching(s, Livre(st.tamanho));
    LivreIsFree(st.tamanho);
    assert m[0] in m[..st.quantas];
    assert Executar(s, st)[m[0]].ocupada && !s[m[0]].ocupada;
  }

  /** The first step of the plan that can be carried out is; if none can, nothing
      changes. Either way the number of spots is kept. */
  function Aplicar(s: seq<VagaState>, steps: seq<Step>): (r: seq<VagaState>)
    ensures |r| == |s|
    decreases |steps|
  {
    if steps == [] then s
    else if Cabe(s, steps[0]) then Executar(s, steps[0])
    else Aplicar(s, steps[1..])
  }

  /** A plan carries out its first step that fits. */
  lemma {:induction false} AplicarFirst(s: seq<VagaState>, steps: seq<Step>, k: nat)
    requires k < |steps| && Cabe(s, steps[k])
    requires forall j :: 0 <= j < k ==> !Cabe(s, steps[j])
    ensures Aplicar(s, steps) == Executar(s, steps[k])
    decreases k
  {
    if k > 0 {
      var rest := steps[1..];
      forall j | 0 <= j < k - 1 ensures !Cabe(s, rest[j]) {
        assert rest[j] == steps[j + 1];
      }
      assert rest[k - 1] == steps[k];
      AplicarFirst(s, rest, k - 1);
      assert !Cabe(s, steps[0]);
    }
  }

  /** A plan none of whose steps fits changes nothing. */
  lemma {:induction false} AplicarNone(s: seq<VagaState>, steps: seq<Step>)
    requires forall k :: 0 <= k < |steps| ==> !Cabe(s, steps[k])
    ensures Aplicar(s, steps) == s
    decreases |steps|
  {
    if steps != [] {
      assert !Cabe(s, steps[0]);
      var rest := steps[1..];
      assert forall k :: 0 <= k < |rest| ==> rest[k] == steps[k + 1];
      AplicarNone(s, rest);
    }
  }

  /** When some step i of a plan fits, the plan's result is that of a step k that fits. */
  lemma {:induction false} AplicarSome(s: seq<VagaState>, steps: seq<Step>, i: nat) returns (k: nat)
    requires i < |steps| && Cabe(s, steps[i])
    ensures k <= i && Cabe(s, steps[k]) && Aplicar(s, steps) == Executar(s, steps[k])
    decreases i
  {
    if Cabe(s, steps[0]) {
      k := 0;
    } else {
      var rest := steps[1..];
      assert rest[i - 1] == steps[i];
      var k' := AplicarSome(s, rest, i - 1);
      k := k' + 1;
      assert rest[k'] == steps[k];
    }
  }

  /** The spots after one vehicle of category `tipo` has been placed (or not); the
      number of spots is kept. */
  function Alocar(s: seq<VagaState>, tipo: TipoVeiculo): (r: seq<VagaState>)
    ensures |r| == |s|
  {
    Aplicar(s, Plano(tipo))
  }

  /** A vehicle is left unplaced, and nothing changes, exactly when no step of its
      category's plan can be carried out. */
  lemma AlocarUnplaced(s: seq<VagaState>, tipo: TipoVeiculo)
    ensures Alocar(s, tipo) == s <==> forall k :: 0 <= k < |Plano(tipo)| ==> !Cabe(s, Plano(tipo)[k])
  {
    var plan := Plano(tipo);
    if i :| 0 <= i < |plan| && Cabe(s, plan[i]) {
      var k := AplicarSome(s, plan, i);
      ExecutarChanges(s, plan[k]);
    } else {
      AplicarNone(s, plan);
    }
  }

  /** Occupying one more position of a list extends the marking by that position. */
  lemma OccupyNext(s: seq<VagaState>, idx: seq<nat>, n: nat)
    requires forall k :: 0 <= k < |idx| ==> idx[k] < |s|
    requires n < |idx|
    ensures Occupy(s, idx[..n + 1]) == Mark(Occupy(s, idx[..n]), idx[n])
  {
    assert idx[..n + 1][..n] == idx[..n];
  }

  /** Each category's plan written out as its chain of fallbacks. */
  lemma AlocarSteps(s: seq<VagaState>)
    ensures Alocar(s, Van) ==
      if Cabe(s, Step(Grande, 1)) then Executar(s, Step(Grande, 1))
      else if Cabe(s, Step(VagaTamanho.Carro, 3)) then Executar(s, Step(VagaTamanho.Carro, 3))
      else s
    ensures Alocar(s, TipoVeiculo.Carro) ==
      if Cabe(s, Step(VagaTamanho.Carro, 1)) then Executar(s, Step(VagaTamanho.Carro, 1))
      else if Cabe(s, Step(Grande, 1)) then Executar(s, Step(Grande, 1))
      else s
    ensures Alocar(s, TipoVeiculo.Moto) ==
      if Cabe(s, Step(VagaTamanho.Moto, 1)) then Executar(s, Step(VagaTamanho.Moto, 1))
      else if Cabe(s, Step(VagaTamanho.Carro, 1)) then Executar(s, Step(VagaTamanho.Carro, 1))
      else if Cabe(s, Step(Grande, 1)) then Executar(s, Step(Grande, 1))
      else s
  {
    var van, carro, moto := Plano(Van), Plano(TipoVeiculo.Carro), Plano(TipoVeiculo.Moto);
    assert van[1..][1..] == [] && carro[1..][1..] == [] && moto[1..][1..][1..] == [];
  }

  // Vocabulary for stating the policy outright.

  predicate IsFree(v: VagaState, t: VagaTamanho)
  {
    v.tamanho == t && !v.ocupada
  }

  predicate NoneFree(s: seq<VagaState>, t: VagaTamanho)
  {
    forall i :: 0 <= i < |s| ==> !IsFree(s[i], t)
  }

  /** Position i holds the first free spot of size t in list order. */
  predicate FirstFree(s: seq<VagaState>, t: VagaTamanho, i: int)
  {
    0 <= i < |s| && IsFree(s[i], t) && forall j :: 0 <= j < i ==> !IsFree(s[j], t)
  }

  /** Positions i < j < k hold the first three free spots of size t in list order. */
  predicate FirstThreeFree(s: seq<VagaState>, t: VagaTamanho, i: int, j: int, k: int)
  {
    0 <= i < j < k < |s| && IsFree(s[i], t) && IsFree(s[j], t) && IsFree(s[k], t)
    && forall m :: 0 <= m < k && m != i && m != j ==> !IsFree(s[m], t)
  }

  function CountFree(s: seq<VagaState>, t: VagaTamanho): nat
  {
    |Matching(s, Livre(t))|
  }

  /** The number of occupied spots, as the facility's occupancy query counts them. */
  function CountOcupadas(s: seq<VagaState>): nat
  {
    |Matching(s, Is(Ocupado(true)))|
  }

  function CountLivres(s: seq<VagaState>): nat
  {
    |Matching(s, Is(Ocupado(false)))|
  }

  // The policy, stated outright.

  lemma LivreIsFree(t: VagaTamanho)
    ensures forall v :: Accepts(Livre(t), v) <==> IsFree(v, t)
  {
    forall v ensures Accepts(Livre(t), v) <==> IsFree(v, t) {
      LivreMeans(t, v);
    }
  }

  /** The head of the list of free spots of a size is the first free spot of that
      size in list order, and the list is empty exactly when no such spot is free. */
  lemma FirstFreeIsHead(s: seq<VagaState>, t: VagaTamanho)
    ensures NoneFree(s, t) <==> CountFree(s, t) == 0
    ensures forall i :: FirstFree(s, t, i) <==> CountFree(s, t) > 0 && Matching(s, Livre(t))[0] == i
  {
    var m := Matching(s, Livre(t));
    LivreIsFree(t);
    if |m| > 0 {
      assert IsFree(s[m[0]], t);
    }
    forall j | 0 <= j < |s| && IsFree(s[j], t) ensures |m| > 0 && m[0] <= j {
      assert j in m;
    }
    forall i | FirstFree(s, t, i) ensures |m| > 0 && m[0] == i {
    }
    forall i | |m| > 0 && m[0] == i ensures FirstFree(s, t, i) {
    }
  }

  /** Occupying the first n matches marks exactly the matching spots preceded by
      fewer than n matches, and leaves every other spot as it was. */
  lemma TakeFirst(s: seq<VagaState>, p: Spec<VagaAtom>, n: nat)
    requires n <= |Matching(s, p)|
    ensures var r := Occupy(s, Matching(s, p)[..n]);
      |r| == |s| &&
      forall m :: 0 <= m < |s| ==>
        r[m] == if Accepts(p, s[m]) && |Matching(s[..m], p)| < n then s[m].(ocupada := true) else s[m]
  {
    var all := Matching(s, p);
    forall m | 0 <= m < |s|
      ensures (m in all[..n]) <==> Accepts(p, s[m]) && |Matching(s[..m], p)| < n
    {
      if m in all[..n] {
        var k :| 0 <= k < n && all[k] == m;
        MatchingRankOf(s, p, k);
      } else if Accepts(p, s[m]) {
        MatchingRank(s, p, m);
      }
    }
  }

  lemma OccupyOne(s: seq<VagaState>, idx: seq<nat>)
    requires 0 < |idx| && forall k :: 0 <= k < |idx| ==> idx[k] < |s|
    ensures Occupy(s, idx[..1]) == Mark(s, idx[0])
  {
    assert idx[..1][..0] == [];
  }

  /** A Carro takes the first free Carro spot; failing that, the first free Grande
      spot; failing both, nothing changes. */
  lemma CarroPolicy(s: seq<VagaState>)
    ensures forall i :: FirstFree(s, VagaTamanho.Carro, i) ==> Alocar(s, TipoVeiculo.Carro) == Mark(s, i)
    ensures NoneFree(s, VagaTamanho.Carro) ==>
      forall i :: FirstFree(s, Grande, i) ==> Alocar(s, TipoVeiculo.Carro) == Mark(s, i)
    ensures NoneFree(s, VagaTamanho.Carro) && NoneFree(s, Grande) ==> Alocar(s, TipoVeiculo.Carro) == s
  {
    var plan := Plano(TipoVeiculo.Carro);
    FirstFreeIsHead(s, VagaTamanho.Carro);
    FirstFreeIsHead(s, Grande);
    var mc := Matching(s, Livre(VagaTamanho.Carro));
    var mg := Matching(s, Livre(Grande));
    if |mc| > 0 {
      OccupyOne(s, mc);
    } else {
      assert Alocar(s, TipoVeiculo.Carro) == Aplicar(s, plan[1..]);
      if |mg| > 0 {
        OccupyOne(s, mg);
      } else {
        assert Aplicar(s, plan[1..]) == Aplicar(s, plan[2..]);
      }
    }
  }

  /** A Moto takes the first free Moto spot; failing that, the first free Carro
      spot; failing that, the first free Grande spot; failing all three, nothing changes. */
  lemma MotoPolicy(s: seq<VagaState>)
    ensures forall i :: FirstFree(s, VagaTamanho.Moto, i) ==> Alocar(s, TipoVeiculo.Moto) == Mark(s, i)
    ensures NoneFree(s, VagaTamanho.Moto) ==>
      forall i :: FirstFree(s, VagaTamanho.Carro, i) ==> Alocar(s, TipoVeiculo.Moto) == Mark(s, i)
    ensures NoneFree(s, VagaTamanho.Moto) && NoneFree(s, VagaTamanho.Carro) ==>
      forall i :: FirstFree(s, Grande, i) ==> Alocar(s, TipoVeiculo.Moto) == Mark(s, i)
    ensures NoneFree(s, VagaTamanho.Moto) && NoneFree(s, VagaTamanho.Carro) && NoneFree(s, Grande) ==>
      Alocar(s, TipoVeiculo.Moto) == s
  {
    var plan := Plano(TipoVeiculo.Moto);
    FirstFreeIsHead(s, VagaTamanho.Moto);
    FirstFreeIsHead(s, VagaTamanho.Carro);
    FirstFreeIsHead(s, Grande);
    var mm := Matching(s, Livre(VagaTamanho.Moto));
    var mc := Matching(s, Livre(VagaTamanho.Carro));
    var mg := Matching(s, Livre(Grande));
    if |mm| > 0 {
      OccupyOne(s, mm);
    } else {
      assert Alocar(s, TipoVeiculo.Moto) == Aplicar(s, plan[1..]);
      if |mc| > 0 {
        OccupyOne(s, mc);
      } else {
        assert Aplicar(s, plan[1..]) == Aplicar(s, plan[2..]);
        if |mg| > 0 {
          OccupyOne(s, mg);
        } else {
          assert Aplicar(s, plan[2..]) == Aplicar(s, plan[3..]);
        }
      }
    }
  }

  /** A Van takes the first free Grande spot. Failing that, when at least three Carro
      spots are free it takes exactly the first three in list order (a spot is taken
      when it is a free Carro spot preceded by fewer than three free Carro spots) and
      leaves the rest as they were; with fewer than three, nothing changes. */
  lemma VanPolicy(s: seq<VagaState>)
    ensures forall i :: FirstFree(s, Grande, i) ==> Alocar(s, Van) == Mark(s, i)
    ensures NoneFree(s, Grande) && CountFree(s, VagaTamanho.Carro) < 3 ==> Alocar(s, Van) == s
    ensures NoneFree(s, Grande) && CountFree(s, VagaTamanho.Carro) >= 3 ==>
      var r := Alocar(s, Van);
      |r| == |s| &&
      forall m :: 0 <= m < |s| ==>
        r[m] == if IsFree(s[m], VagaTamanho.Carro) && CountFree(s[..m], VagaTamanho.Carro) < 3
                then s[m].(ocupada := true) else s[m]
  {
    var plan := Plano(Van);
    FirstFreeIsHead(s, Grande);
    LivreIsFree(VagaTamanho.Carro);
    var mg := Matching(s, Livre(Grande));
    var mc := Matching(s, Livre(VagaTamanho.Carro));
    if |mg| > 0 {
      OccupyOne(s, mg);
    } else {
      assert Alocar(s, Van) == Aplicar(s, plan[1..]);
      if |mc| >= 3 {
        TakeFirst(s, Livre(VagaTamanho.Carro), 3);
      } else {
        assert Aplicar(s, plan[1..]) == Aplicar(s, plan[2..]);
      }
    }
  }

  /** In an increasing list whose entries before position qk are i or j, the
      positions of i < j < k are 0, 1 and 2. */
  lemma ThreePositions(m: seq<nat>, i: nat, j: nat, k: nat)
    requires forall a, b :: 0 <= a < b < |m| ==> m[a] < m[b]
    requires i in m && j in m && k in m && i < j < k
    requires forall x :: x in m && x < k ==> x == i || x == j
    ensures |m| >= 3 && m[..3] == [i, j, k]
  {
    var qi :| 0 <= qi < |m| && m[qi] == i;
    var qj :| 0 <= qj < |m| && m[qj] == j;
    var qk :| 0 <= qk < |m| && m[qk] == k;
    assert m[0] in m && m[0] <= i;
    assert qj > 0 && qk > 1;
    assert m[1] in m && m[1] <= j;
    assert m[2] in m && m[2] <= k;
  }

  /** Three free spots with no other free spot of their size before the last one
      are the first three entries of the free-spot list. */
  lemma FirstThreeMatches(s: seq<VagaState>, t: VagaTamanho, i: nat, j: nat, k: nat)
    requires FirstThreeFree(s, t, i, j, k)
    ensures CountFree(s, t) >= 3 && Matching(s, Livre(t))[..3] == [i, j, k]
  {
    var m := Matching(s, Livre(t));
    LivreMeans(t, s[i]);
    LivreMeans(t, s[j]);
    LivreMeans(t, s[k]);
    assert i in m && j in m && k in m;
    forall x | x in m && x < k ensures x == i || x == j {
      var q :| 0 <= q < |m| && m[q] == x;
      LivreMeans(t, s[x]);
    }
    ThreePositions(m, i, j, k);
  }

  /** The Van fallback, stated with the three positions it takes. */
  lemma VanFirstThree(s: seq<VagaState>, i: nat, j: nat, k: nat)
    requires NoneFree(s, Grande) && FirstThreeFree(s, VagaTamanho.Carro, i, j, k)
    ensures Alocar(s, Van) == Occupy(s, [i, j, k])
  {
    FirstFreeIsHead(s, Grande);
    FirstThreeMatches(s, VagaTamanho.Carro, i, j, k);
    AlocarSteps(s);
  }

  /** Allocation never frees a spot and never changes a spot's size. */
  lemma {:induction false} AplicarKeeps(s: seq<VagaState>, steps: seq<Step>)
    ensures var r := Aplicar(s, steps);
      |r| == |s| &&
      forall i :: 0 <= i < |s| ==> r[i].tamanho == s[i].tamanho && (s[i].ocupada ==> r[i].ocupada)
    decreases |steps|
  {
    if steps != [] {
      AplicarKeeps(s, steps[1..]);
    }
  }

  lemma AlocarKeeps(s: seq<VagaState>, tipo: TipoVeiculo)
    ensures var r := Alocar(s, tipo);
      |r| == |s| &&
      forall i :: 0 <= i < |s| ==> r[i].tamanho == s[i].tamanho && (s[i].ocupada ==> r[i].ocupada)
  {
    AplicarKeeps(s, Plano(tipo));
  }

  /** Occupying one free spot raises the occupied count by one. */
  lemma {:induction false} MarkCount(s: seq<VagaState>, i: nat)
    requires i < |s| && !s[i].ocupada
    ensures CountOcupadas(Mark(s, i)) == CountOcupadas(s) + 1
    decreases |s|
  {
    var n := |s|;
    var t := Mark(s, i);
    if i == n - 1 {
      assert t[..n - 1] == s[..n - 1];
    } else {
      assert t[..n - 1] == Mark(s[..n - 1], i);
      MarkCount(s[..n - 1], i);
    }
  }

  /** Occupying distinct free spots raises the occupied count by their number. */
  lemma {:induction false} OccupyCount(s: seq<VagaState>, idx: seq<nat>)
    requires forall k :: 0 <= k < |idx| ==> idx[k] < |s| && !s[idx[k]].ocupada
    requires forall k, l :: 0 <= k < l < |idx| ==> idx[k] != idx[l]
    ensures CountOcupadas(Occupy(s, idx)) == CountOcupadas(s) + |idx|
    decreases |idx|
  {
    if idx != [] {
      var init := idx[..|idx| - 1];
      var x := idx[|idx| - 1];
      OccupyCount(s, init);
      assert x !in init;
      MarkCount(Occupy(s, init), x);
    }
  }

  /** A plan either changes nothing or raises the occupied count by the size of
      the step that succeeded. */
  lemma {:induction false} AplicarGrowth(s: seq<VagaState>, steps: seq<Step>)
    ensures var r := Aplicar(s, steps);
      r == s ||
      exists k :: 0 <= k < |steps| && 0 < steps[k].quantas &&
                  CountOcupadas(r) == CountOcupadas(s) + steps[k].quantas
    decreases |steps|
  {
    if steps != [] {
      var livres := Matching(s, Livre(steps[0].tamanho));
      var n := steps[0].quantas;
      if |livres| >= n {
        LivreIsFree(steps[0].tamanho);
        OccupyCount(s, livres[..n]);
        if n == 0 {
          assert livres[..n] == [];
        }
      } else {
        AplicarGrowth(s, steps[1..]);
        var r := Aplicar(s, steps);
        if r != s {
          var k :| 0 <= k < |steps[1..]| && 0 < steps[1..][k].quantas &&
                   CountOcupadas(r) == CountOcupadas(s) + steps[1..][k].quantas;
          assert steps[k + 1] == steps[1..][k];
        }
      }
    }
  }

  /** One allocation occupies no spot (and then changes nothing), one spot, or,
      for a Van only, three spots. */
  lemma AlocarGrowth(s: seq<VagaState>, tipo: TipoVeiculo)
    ensures var d := CountOcupadas(Alocar(s, tipo)) - CountOcupadas(s);
      (d == 0 <==> Alocar(s, tipo) == s) && (d == 0 || d == 1 || (tipo == Van && d == 3))
  {
    AplicarGrowth(s, Plano(tipo));
  }

  /** Every spot is counted either as occupied or as free. */
  lemma {:induction false} OcupadasPlusLivres(s: seq<VagaState>)
    ensures CountOcupadas(s) + CountLivres(s) == |s|
    decreases |s|
  {
    if s != [] {
      OcupadasPlusLivres(s[..|s| - 1]);
    }
  }
}
