# Parking-spot allocation (Estacionamento)

This project models the allocation core of `Estacionamento/Program.cs`. That core has four parts:

- Composable predicates: a size test, an occupancy test, a vehicle-category test, and their conjunction.
- A filter that returns, in list order, the spots a predicate accepts.
- A facility (`Estacionamento`) that owns an ordered list of spot objects.
- `OcuparVaga`, which places one vehicle by marking one or three of those spots occupied in place.

The allocation follows a fixed fallback chain for each vehicle category:

- Carro: a free Carro spot, else a free Grande spot.
- Moto: a free Moto spot, else a free Carro spot, else a free Grande spot.
- Van: a free Grande spot, else the first three free Carro spots, and only if at least three are free.

Within each step the first candidate in list order wins. When the chain runs out, nothing changes.

Module layout:

- `Model` (`model.dfy`): the entities. `Vaga` is a class, since its `ocupada` flag is updated in place. `VagaState` is the value snapshot of one spot.
- `Specification` (`specification.dfy`): the predicates as a datatype `Spec<A> = Is(atom) | And(first, second)`, and what they accept.
- `Filtering` (`filter.dfy`): `Filter` over spot objects. `Matching` is the list of accepted positions, characterised exactly (each accepted position once, in increasing order).
- `Policy` (`policy.dfy`): the allocation as a value-level reference definition. Each category has a plan of (size, count) steps, and `Alocar` runs the first step that fits. The module also holds the lemmas that state each category's policy outright, and the occupancy-count lemmas.
- `Parking` (`estacionamento.dfy`): the class `Estacionamento`. Its methods mutate the spot objects. `OcuparVaga` is proved to leave the spots exactly as `Alocar` prescribes for the old state.
- `Scenario` (`scenario.dfy`): the demonstration in `Main`. Ten spots receive five vehicles. The model proves the allocation of each vehicle, and the reported counts: 7 occupied, 3 free, neither full nor empty, 1 Moto, 5 Carro and 1 Grande spot occupied.

The demo has a consequence that is easy to get wrong: a sixth Van arriving after it IS placed. No Grande spot is free, but positions 6, 7 and 8 are three free Carro spots, so the Van takes them and the lot becomes full (`SextaVan`, `SextaVanLotada`). The model follows the code here. An expectation that this Van is left unplaced does not match the code.

## Model

| member | source | states |
|---|---|---|
| Model.Vaga.constructor | Estacionamento/Program.cs:97-101 | a new spot has the size it was given and is free |
| Specification.VagaAtomHolds | Estacionamento/Program.cs:55-82 | the size test and the occupancy test (`IsSatisfied` of the two spot tests): an atom holds of a spot exactly when it is the spot's own size or its own occupancy flag |
| Specification.VeiculoAtomHolds | Estacionamento/Program.cs:26-39 | the category test (`IsSatisfied` of the vehicle test): it holds exactly when it names the vehicle's own category |
| Specification.Accepts | Estacionamento/Program.cs:40-82 | a spot test, atoms joined by `AndSpecification`, accepts a spot exactly when every atom holds of it, however the conjunctions nest (its meaning for the allocation's tests: `LivreMeans`) |
| Specification.AcceptsVeiculo | Estacionamento/Program.cs:26-54 | a vehicle test accepts a vehicle exactly when every atom names the vehicle's category (`TipoMeans`) |
| Specification.LivreMeans | Estacionamento/Program.cs:40-82 | the conjunction "size t" and "not occupied" accepts a spot exactly when both hold |
| Specification.TipoMeans | Estacionamento/Program.cs:26-54 | a category test accepts exactly the vehicles of that category; a conjunction of two category tests accepts only when both categories agree |
| Filtering.Matching | Estacionamento/Program.cs:83-91 | every accepted position is listed, every listed position is accepted, and positions appear in strictly increasing order |
| Filtering.Filter | Estacionamento/Program.cs:83-91 | the filter returns only accepted spots of the list; its k-th result is the spot at the k-th accepted position, so nothing is dropped and the order is kept |
| Filtering.FilterAndIsSubsequence | Estacionamento/Program.cs:40-91 | filtering by a conjunction yields a subsequence of filtering by either part |
| Filtering.MatchingPrefix | Estacionamento/Program.cs:85-90 | the matches in a prefix of the list are a prefix of the matches in the whole list |
| Filtering.MatchingRank | Estacionamento/Program.cs:85-90 | an accepted position m is the match numbered by the count of matches before m |
| Filtering.MatchingRankOf | Estacionamento/Program.cs:85-90 | the k-th match is preceded by exactly k matches |
| Filtering.MatchingExact | Estacionamento/Program.cs:83-91 | any strictly increasing list holding exactly the accepted positions is the filter's result |
| Parking.Estacionamento.constructor | Estacionamento/Program.cs:114-116 | the facility holds the given list of spots, with no spot listed twice |
| Parking.Estacionamento.VagasOcupadas | Estacionamento/Program.cs:117-124 | the query returns only the facility's accepted spots, exactly those at the accepted positions, in list order |
| Parking.Estacionamento.OcuparVaga | Estacionamento/Program.cs:125-191 | the spots after placing a vehicle equal the category's plan applied to the spots before; the facility stays free of duplicates |
| Parking.Estacionamento.Ocupar | Estacionamento/Program.cs:133 | setting one spot's flag marks that position occupied and changes no other position |
| Parking.Estacionamento.OcuparPrimeira | Estacionamento/Program.cs:156-160 | succeeds exactly when a spot of size t is free, and then occupies the first such spot in list order; otherwise nothing changes |
| Parking.Estacionamento.OcuparTres | Estacionamento/Program.cs:137-150 | with at least three free Carro spots the first three are occupied, one by one; with fewer, nothing changes |
| Policy.Mark | Estacionamento/Program.cs:133 | the write `Ocupada = true` on one spot: that spot keeps its size and is occupied, every other spot is as it was |
| Policy.Occupy | Estacionamento/Program.cs:141-149 | after occupying a list of positions, exactly the listed positions are occupied and nothing else changes |
| Policy.Plano | Estacionamento/Program.cs:127-190 | each category's fallback chain of (size, number of spots) steps, as the switch's cases try them: two or three steps, each needing at least one spot, and only the Van's three-Carro-spot step needing more than one |
| Policy.Cabe | Estacionamento/Program.cs:131-138 | whether a step fits: enough free spots of its size; a single-spot step fits exactly when some spot of its size is free (`vagas.Any()`), and the Van fallback needs `Count() >= 3` |
| Policy.Executar | Estacionamento/Program.cs:133-149 | carrying out a step occupies the first free spots of its size in list order: only free spots of that size change, and they become occupied (closed form: `TakeFirst`, `FirstThreeMatches`) |
| Policy.ExecutarChanges | Estacionamento/Program.cs:133 | a step that fits and needs a spot always changes the lot |
| Policy.Aplicar | Estacionamento/Program.cs:127-190 | running a chain: the first step that fits is carried out, otherwise nothing changes; the number of spots is kept (first fit: `AplicarFirst`, `AplicarNone`, `AplicarSome`; monotonicity: `AplicarKeeps`, `AplicarGrowth`) |
| Policy.AplicarFirst | Estacionamento/Program.cs:127-190 | when step k fits and no earlier step does, the chain's result is step k carried out |
| Policy.AplicarNone | Estacionamento/Program.cs:127-190 | when no step fits, the chain changes nothing |
| Policy.AplicarSome | Estacionamento/Program.cs:127-190 | when some step fits, the chain's result is some fitting step, no later than it, carried out |
| Policy.Alocar | Estacionamento/Program.cs:125-191 | the reference definition `OcuparVaga` is proved against: the category's chain applied to the spots, keeping their number (outright: `CarroPolicy`, `MotoPolicy`, `VanPolicy`; invariants: `AlocarKeeps`, `AlocarGrowth`, `AlocarUnplaced`) |
| Policy.AlocarUnplaced | Estacionamento/Program.cs:125-191 | a vehicle is left unplaced, with nothing changed, exactly when no step of its category's chain fits |
| Policy.OccupyNext | Estacionamento/Program.cs:141-149 | occupying one more listed position extends the previous result by that position |
| Policy.OccupyOne | Estacionamento/Program.cs:133 | occupying the first listed position is a single mark |
| Policy.AlocarSteps | Estacionamento/Program.cs:127-190 | each category's plan unfolds into the if-chain of the switch: Van (Grande, then three Carro), Carro (Carro, then Grande), Moto (Moto, then Carro, then Grande) |
| Policy.LivreIsFree | Estacionamento/Program.cs:130 | the allocation's candidate test accepts exactly the free spots of the size |
| Policy.FirstFreeIsHead | Estacionamento/Program.cs:130-134 | the query's first result is the first free spot of the size in list order, and the query is empty exactly when none is free |
| Policy.TakeFirst | Estacionamento/Program.cs:137-150 | taking the first n matches occupies exactly the matching spots preceded by fewer than n matches |
| Policy.CarroPolicy | Estacionamento/Program.cs:155-169 | a Carro takes the first free Carro spot, else the first free Grande spot, else nothing changes |
| Policy.MotoPolicy | Estacionamento/Program.cs:170-187 | a Moto takes the first free Moto spot, else the first free Carro spot, else the first free Grande spot, else nothing changes |
| Policy.VanPolicy | Estacionamento/Program.cs:129-151 | a Van takes the first free Grande spot; else, with at least three free Carro spots, it takes exactly the first three in list order and leaves the rest; else nothing changes |
| Policy.FirstThreeMatches | Estacionamento/Program.cs:137-149 | three free spots with no other free spot of their size before the last are the first three candidates |
| Policy.VanFirstThree | Estacionamento/Program.cs:135-150 | with no free Grande spot, a Van occupies the first three free Carro spots, named by position |
| Policy.AplicarKeeps | Estacionamento/Program.cs:125-191 | applying a plan never frees a spot, never changes a size and keeps the number of spots |
| Policy.AlocarKeeps | Estacionamento/Program.cs:125-191 | placing a vehicle never frees a spot, never changes a size and keeps the number of spots |
| Policy.MarkCount | Estacionamento/Program.cs:133 | occupying one free spot raises the occupied count by one |
| Policy.OccupyCount | Estacionamento/Program.cs:137-150 | occupying distinct free spots raises the occupied count by their number |
| Policy.AplicarGrowth | Estacionamento/Program.cs:125-191 | a plan either changes nothing, or raises the occupied count by the size of one of its steps |
| Policy.AlocarGrowth | Estacionamento/Program.cs:125-191 | placing a vehicle raises the occupied count by 0 (exactly when nothing changes), by 1, or, for a Van only, by 3 |
| Policy.OcupadasPlusLivres | Estacionamento/Program.cs:227-228 | occupied plus free spots is the number of spots |
| Scenario.Passo1 | Estacionamento/Program.cs:221 | the first Carro takes position 0 |
| Scenario.Passo2 | Estacionamento/Program.cs:222 | the first Van takes the Grande spot at position 2 |
| Scenario.Passo3 | Estacionamento/Program.cs:223 | the Moto takes the Moto spot at position 9 |
| Scenario.Passo4 | Estacionamento/Program.cs:224 | the second Van finds no Grande spot and takes Carro positions 1, 3 and 4 |
| Scenario.Passo5 | Estacionamento/Program.cs:225 | the second Carro takes position 5 |
| Scenario.DemoAllocations | Estacionamento/Program.cs:219-225 | the five placements in order lead from the all-free lot to the final one |
| Scenario.InicialVazio | Estacionamento/Program.cs:198-207 | the ten new spots are all free |
| Scenario.ContaUm | Estacionamento/Program.cs:221-225 | each single-spot placement of the demo adds one occupied spot |
| Scenario.ContaTres | Estacionamento/Program.cs:224 | the second Van's placement adds three occupied spots |
| Scenario.DemoCounts | Estacionamento/Program.cs:227-236 | seven occupied and three free spots are reported, and the lot is neither full nor empty |
| Scenario.DemoMotos | Estacionamento/Program.cs:237 | one Moto spot is occupied |
| Scenario.DemoCarros | Estacionamento/Program.cs:238 | five Carro spots are occupied |
| Scenario.DemoGrandes | Estacionamento/Program.cs:239 | one Grande spot is occupied |
| Scenario.SextaVan | Estacionamento/Program.cs:135-150 | a further Van after the demo takes the free Carro positions 6, 7 and 8 |
| Scenario.SextaVanLotada | Estacionamento/Program.cs:229-232 | after that Van every spot is occupied |
| Scenario.CincoVagas | Estacionamento/Program.cs:198-207 | five new spots are distinct, fresh, free and have the demo's sizes for their positions |
| Scenario.NovoEstacionamento | Estacionamento/Program.cs:198-220 | the demo's facility is new, holds ten distinct new spots and is all free with the demo's sizes |
| Scenario.Demo | Estacionamento/Program.cs:196-240 | running the demo on the objects yields the reported counts 7, 3, 1, 5 and 1 |

## Left out

- The console output of `Main` (Program.cs:227-239) is modelled as the returned counts and the full/empty facts, not as printed text.
- The "full" and "empty" messages are proved about the final state (`DemoCounts`), not as a branch of printing.
- The lazy `IEnumerable`/`yield` evaluation of the filter and the query is modelled as an eagerly computed list. The core reads each result before any write, and `OcuparTres` takes the list first, as `.ToList()` does at line 137, so the results are the same.
- `Parking.Estacionamento.OcuparVaga`: the `default` branch of the switch (line 188) has no counterpart, because the category is a closed datatype with exactly the three values.
- Null spots, a null list and null vehicles are not modelled. Dafny references in the model are non-null.
- `Parking.Estacionamento.constructor`: the settable `Vagas` property is modelled as a list fixed at construction, which is how the demo uses it (line 220).
- `Parking.Estacionamento.constructor`: a list that holds the same spot object twice is excluded by the constructor's precondition. With such aliasing, any write to one spot (lines 133, 159, 166, 173, 178, 183 and 143) changes every position holding that object. A single Carro or Moto placement would then occupy two positions, and the three-spot loop could mark one object twice. So the link between `OcuparVaga` and `Alocar` holds only for lists without repeated spots.
- `Parking.Estacionamento.OcuparVaga`: its ensures ties the new state to `Alocar`. "No spot freed, no size changed" and the occupancy growth are proved about `Alocar` (`AlocarKeeps`, `AlocarGrowth`), not repeated in the method's ensures.
- The generic `IFilter<T>` interface and the unused `using` directives are not modelled. `BetterFilter` is the only filter, and it is modelled directly.
- `TipoVeiculoSpecification` is not used by the allocation. It is modelled as `AcceptsVeiculo`, and its meaning is stated by `TipoMeans`.
- `Scenario.NovoEstacionamento` creates the ten spots in two groups of five (`CincoVagas`), in the same order and with the same sizes as lines 198-207.
