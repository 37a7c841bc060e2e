/**
  Round scoring: `CalcularPontos`. The same function is declared, word for
  word, in internal/server/placar.go and internal/server/LogicaTrivia.go; it
  is modelled once here.

  Only answers whose option is exactly the correct option count; they are
  sorted by receipt time (unstably), the earliest player is set to 100 and
  the second to 50 in a map, and the map is turned into a list in Go's
  unspecified map order. Because both orders are unspecified, the method
  returns the sorted order it used as a ghost value, and the lemmas hold for
  EVERY sorted permutation `ordem` of the correct answers and EVERY list
  that enumerates `Premios(ordem)`.
 */
module Placar {
  import opened Colecoes

  /** An answer: who sent it, the option text, and the server's receipt
      time (a `time.Time`, here an integer instant). */
  datatype Resposta = Resposta(player: string, opcao: string, tempo: int)

  /** One score delta produced by a round. */
  datatype Pontuacao = Pontuacao(player: string, pontos: int)

  /** The sort key: `Tempo.Before` is `<` on instants. */
  function Tempo(r: Resposta): int { r.tempo }

  /** The filtering loop: the answers whose option equals the correct one,
      in input order. */
  function Corretas(respostas: seq<Resposta>, opcaoCorreta: string): (c: seq<Resposta>)
    ensures |c| <= |respostas|
    ensures forall r :: r in c <==> r in respostas && r.opcao == opcaoCorreta
  {
    if respostas == [] then []
    else
      var ultima := respostas[|respostas| - 1];
      var anteriores := Corretas(respostas[..|respostas| - 1], opcaoCorreta);
      assert respostas == respostas[..|respostas| - 1] + [ultima];
      if ultima.opcao == opcaoCorreta then anteriores + [ultima] else anteriores
  }

  /** `ordem` is a possible result of the in-place sort: the correct answers,
      permuted into non-decreasing receipt time. */
  ghost predicate OrdemValida(ordem: seq<Resposta>, respostas: seq<Resposta>, opcaoCorreta: string) {
    Ordenado(ordem, Tempo) && multiset(ordem) == multiset(Corretas(respostas, opcaoCorreta))
  }

  /** The `pontos` map written by the two `if`s: first slot 100, then second
      slot 50 (the later write wins when both slots hold the same player). */
  function Premios(ordem: seq<Resposta>): (r: map<string, int>)
    ensures |ordem| == 0 ==> r == map[]
    ensures forall p :: p in r ==> (|ordem| > 0 && p == ordem[0].player) || (|ordem| > 1 && p == ordem[1].player)
    ensures forall p :: p in r ==> r[p] == 100 || r[p] == 50
    ensures |ordem| > 0 ==> ordem[0].player in r
    ensures |ordem| > 0 && (|ordem| == 1 || ordem[1].player != ordem[0].player) ==> r[ordem[0].player] == 100
    ensures |ordem| > 1 ==> ordem[1].player in r && r[ordem[1].player] == 50
  {
    var primeiro: map<string, int> := if |ordem| > 0 then map[ordem[0].player := 100] else map[];
    if |ordem| > 1 then primeiro[ordem[1].player := 50] else primeiro
  }

  /** `l` lists every entry of `m` exactly once, in some order: what the
      final `range` over the map produces. */
  ghost predicate Enumera(l: seq<Pontuacao>, m: map<string, int>) {
    && (forall i, j :: 0 <= i < j < |l| ==> l[i].player != l[j].player)
    && (forall i :: 0 <= i < |l| ==> l[i].player in m && m[l[i].player] == l[i].pontos)
    && (forall p :: p in m ==> exists i :: 0 <= i < |l| && l[i].player == p)
  }

  /** The points a list awards to `player` (the sum of its entries). */
  function PontosDe(l: seq<Pontuacao>, player: string): int {
    if l == [] then 0
    else
      var ultima := l[|l| - 1];
      PontosDe(l[..|l| - 1], player) + (if ultima.player == player then ultima.pontos else 0)
  }

  /** The total of all points a list awards. */
  function Total(l: seq<Pontuacao>): int {
    if l == [] then 0 else Total(l[..|l| - 1]) + l[|l| - 1].pontos
  }

  /** `CalcularPontos(respostas, opcaoCorreta)`. The ghost `ordem` is the
      sorted slice of correct answers the computation went through. */
  method CalcularPontos(respostas: seq<Resposta>, opcaoCorreta: string)
    returns (listaPontos: seq<Pontuacao>, ghost ordem: seq<Resposta>)
    ensures OrdemValida(ordem, respostas, opcaoCorreta)
    ensures Enumera(listaPontos, Premios(ordem))
    ensures |listaPontos| <= 2
    ensures forall i :: 0 <= i < |listaPontos| ==> listaPontos[i].pontos == 100 || listaPontos[i].pontos == 50
    ensures forall i :: 0 <= i < |listaPontos| ==> Acertou(respostas, opcaoCorreta, listaPontos[i].player)
    ensures listaPontos == [] <==> forall r :: r in respostas ==> r.opcao != opcaoCorreta
  {
    var respostaCorreta := FiltrarCorretas(respostas, opcaoCorreta);

    // the slice that sort.Slice reorders in place; `respostas` is untouched
    var fatia := new Resposta[|respostaCorreta|](k requires 0 <= k < |respostaCorreta| => respostaCorreta[k]);
    assert fatia[..] == respostaCorreta;
    OrdenarFatia(fatia, Tempo);
    ordem := fatia[..];

    var pontos: map<string, int> := map[];
    if fatia.Length > 0 {
      pontos := pontos[fatia[0].player := 100];
    }
    if fatia.Length > 1 {
      pontos := pontos[fatia[1].player := 50];
    }
    assert pontos == Premios(ordem);
    listaPontos := ListarPontos(pontos);
    PremiadosSaoOsDoisPrimeiros(ordem, listaPontos);
    ResultadoVazioSemCorretas(respostas, opcaoCorreta, ordem, listaPontos);
    PremiadosAcertaram(respostas, opcaoCorreta, ordem, listaPontos);
  }

  /** The filtering loop of `CalcularPontos`. */
  method FiltrarCorretas(respostas: seq<Resposta>, opcaoCorreta: string) returns (respostaCorreta: seq<Resposta>)
    ensures respostaCorreta == Corretas(respostas, opcaoCorreta)
  {
    respostaCorreta := [];
    for i := 0 to |respostas|
      invariant respostaCorreta == Corretas(respostas[..i], opcaoCorreta)
    {
      assert respostas[..i + 1][..i] == respostas[..i];
      if respostas[i].opcao == opcaoCorreta {
        respostaCorreta := respostaCorreta + [respostas[i]];
      }
    }
    assert respostas[..|respostas|] == respostas;
  }

  /** The final loop of `CalcularPontos`: one `Pontuacao` per map entry, in
      map order. */
  method ListarPontos(pontos: map<string, int>) returns (listaPontos: seq<Pontuacao>)
    ensures Enumera(listaPontos, pontos)
  {
    ghost var chaves;
    listaPontos, chaves := PercorrerMapa(pontos, (player, valor) => Pontuacao(player, valor));
    forall p | p in pontos ensures exists i :: 0 <= i < |listaPontos| && listaPontos[i].player == p {
      var i :| 0 <= i < |chaves| && chaves[i] == p;
      assert listaPontos[i].player == p;
    }
  }

  /** A sorted permutation of the correct answers holds exactly the correct
      answers. */
  lemma OrdemSoTemCorretas(ordem: seq<Resposta>, respostas: seq<Resposta>, opcaoCorreta: string, r: Resposta)
    requires OrdemValida(ordem, respostas, opcaoCorreta)
    ensures r in ordem <==> r in respostas && r.opcao == opcaoCorreta
  {
    assert r in ordem <==> r in multiset(ordem);
    assert r in Corretas(respostas, opcaoCorreta) <==> r in multiset(Corretas(respostas, opcaoCorreta));
  }

  /** `player` sent an answer with exactly the correct option. */
  ghost predicate Acertou(respostas: seq<Resposta>, opcaoCorreta: string, player: string) {
    exists r :: r in respostas && r.opcao == opcaoCorreta && r.player == player
  }

  /** Every listed player sent an answer with exactly the correct option. */
  lemma PremiadosAcertaram(respostas: seq<Resposta>, opcaoCorreta: string, ordem: seq<Resposta>, l: seq<Pontuacao>)
    requires OrdemValida(ordem, respostas, opcaoCorreta)
    requires Enumera(l, Premios(ordem))
    ensures forall i :: 0 <= i < |l| ==> Acertou(respostas, opcaoCorreta, l[i].player)
  {
    forall i | 0 <= i < |l|
      ensures Acertou(respostas, opcaoCorreta, l[i].player)
    {
      assert l[i].player in Premios(ordem);
      var k := if l[i].player == ordem[0].player then 0 else 1;
      var r := ordem[k];
      assert r in ordem && r.player == l[i].player;
      OrdemSoTemCorretas(ordem, respostas, opcaoCorreta, r);
    }
  }

  /** Every player `Premios` names holds the first or the second slot, so
      the third and later correct answers never earn points by themselves;
      each award is 100 or 50, and together they come to at most 150. */
  lemma PremiadosSaoOsDoisPrimeiros(ordem: seq<Resposta>, l: seq<Pontuacao>)
    requires Enumera(l, Premios(ordem))
    ensures |l| <= 2
    ensures forall i :: 0 <= i < |l| ==> l[i].pontos == 100 || l[i].pontos == 50
    ensures forall i :: 0 <= i < |l| ==>
      (|ordem| > 0 && l[i].player == ordem[0].player) || (|ordem| > 1 && l[i].player == ordem[1].player)
    ensures Total(l) <= 150
  {
    NoMaximoDoisPremiados(ordem, l);
    TotalDeDois(l);
  }

  /** A map with at most two keys cannot be enumerated by three distinct
      players. */
  lemma NoMaximoDoisPremiados(ordem: seq<Resposta>, l: seq<Pontuacao>)
    requires Enumera(l, Premios(ordem))
    ensures |l| <= 2
  {
    if |l| >= 3 {
      TresPremiados(ordem, l[..3]);
      assert false;
    }
  }

  /** Three distinct players are never all awarded. */
  lemma TresPremiados(ordem: seq<Resposta>, l: seq<Pontuacao>)
    requires |l| == 3 && l[0].player != l[1].player && l[1].player != l[2].player && l[0].player != l[2].player
    ensures !(l[0].player in Premios(ordem) && l[1].player in Premios(ordem) && l[2].player in Premios(ordem))
  {
  }

  /** The total of a list of one or two entries is the sum of those entries. */
  lemma TotalDeDois(l: seq<Pontuacao>)
    ensures |l| == 1 ==> Total(l) == l[0].pontos
    ensures |l| == 2 ==> Total(l) == l[0].pontos + l[1].pontos
  {
    if |l| == 2 {
      assert l[..1][..0] == [];
    }
  }

  /** A player holding neither of the first two slots, however many correct
      answers came before or after, is awarded nothing. */
  lemma SoOsDoisPrimeirosPontuam(ordem: seq<Resposta>, l: seq<Pontuacao>, player: string)
    requires Enumera(l, Premios(ordem))
    requires forall k :: 0 <= k < |ordem| && k < 2 ==> ordem[k].player != player
    ensures PontosDe(l, player) == 0
  {
    PontosDeEnumeracao(l, Premios(ordem), player);
  }

  /** Without a correct answer the filter keeps nothing. */
  lemma {:induction false} CorretasVazia(respostas: seq<Resposta>, opcaoCorreta: string)
    requires forall r :: r in respostas ==> r.opcao != opcaoCorreta
    ensures Corretas(respostas, opcaoCorreta) == []
  {
    if respostas != [] {
      CorretasVazia(respostas[..|respostas| - 1], opcaoCorreta);
    }
  }

  /** A non-empty enumeration enumerates a non-empty map. */
  lemma EnumeraNaoVazia(l: seq<Pontuacao>, m: map<string, int>)
    requires Enumera(l, m) && l != []
    ensures l[0].player in m
  {
  }

  /** No answer, or no correct one, gives an empty result; and conversely a
      single correct answer is enough for a non-empty one. */
  lemma ResultadoVazioSemCorretas(respostas: seq<Resposta>, opcaoCorreta: string, ordem: seq<Resposta>, l: seq<Pontuacao>)
    requires OrdemValida(ordem, respostas, opcaoCorreta)
    requires Enumera(l, Premios(ordem))
    ensures l == [] <==> forall r :: r in respostas ==> r.opcao != opcaoCorreta
  {
    if forall r :: r in respostas ==> r.opcao != opcaoCorreta {
      CorretasVazia(respostas, opcaoCorreta);
      assert |ordem| == |multiset(ordem)| == 0;
      if l != [] {
        EnumeraNaoVazia(l, Premios(ordem));
        assert false;
      }
    } else {
      var r :| r in respostas && r.opcao == opcaoCorreta;
      OrdemSoTemCorretas(ordem, respostas, opcaoCorreta, r);
      var p := if |ordem| > 1 then ordem[1].player else ordem[0].player;
      assert p in Premios(ordem);
    }
  }

  /** A player none of whose answers is exactly the correct option gets no
      entry. */
  lemma ErradasNaoPontuam(respostas: seq<Resposta>, opcaoCorreta: string, ordem: seq<Resposta>, l: seq<Pontuacao>, player: string)
    requires OrdemValida(ordem, respostas, opcaoCorreta)
    requires Enumera(l, Premios(ordem))
    requires forall r :: r in respostas && r.player == player ==> r.opcao != opcaoCorreta
    ensures forall i :: 0 <= i < |l| ==> l[i].player != player
  {
    PremiadosSaoOsDoisPrimeiros(ordem, l);
    forall i | 0 <= i < |l| ensures l[i].player != player {
      assert l[i].player in Premios(ordem);
      var k := if l[i].player == ordem[0].player then 0 else 1;
      var r := ordem[k];
      assert r in ordem && r.player == l[i].player;
      OrdemSoTemCorretas(ordem, respostas, opcaoCorreta, r);
    }
  }

  /** With at least one correct answer, the first slot holds a correct answer
      with the minimal receipt time, and its player is awarded 100, or 50 when
      the same player also holds the second slot. */
  lemma PrimeiroGanhaCem(respostas: seq<Resposta>, opcaoCorreta: string, ordem: seq<Resposta>, l: seq<Pontuacao>, r: Resposta)
    requires OrdemValida(ordem, respostas, opcaoCorreta)
    requires Enumera(l, Premios(ordem))
    requires r in respostas && r.opcao == opcaoCorreta
    ensures |ordem| > 0 && ordem[0] in respostas && ordem[0].opcao == opcaoCorreta
    ensures forall c :: c in respostas && c.opcao == opcaoCorreta ==> ordem[0].tempo <= c.tempo
    ensures Pontuacao(ordem[0].player, if |ordem| > 1 && ordem[1].player == ordem[0].player then 50 else 100) in l
  {
    OrdemSoTemCorretas(ordem, respostas, opcaoCorreta, r);
    OrdemSoTemCorretas(ordem, respostas, opcaoCorreta, ordem[0]);
    forall c | c in respostas && c.opcao == opcaoCorreta ensures ordem[0].tempo <= c.tempo {
      OrdemSoTemCorretas(ordem, respostas, opcaoCorreta, c);
      var k :| 0 <= k < |ordem| && ordem[k] == c;
      assert k == 0 || Tempo(ordem[0]) <= Tempo(ordem[k]);
    }
    assert ordem[0].player in Premios(ordem);
    var i :| 0 <= i < |l| && l[i].player == ordem[0].player;
    assert l[i] == Pontuacao(ordem[0].player, if |ordem| > 1 && ordem[1].player == ordem[0].player then 50 else 100);
  }

  /** In a sorted sequence, the second element is the earliest of all
      elements but the first. */
  lemma SegundoMenorDoResto(ordem: seq<Resposta>, c: Resposta)
    requires Ordenado(ordem, Tempo) && |ordem| > 1
    requires c in multiset(ordem) - multiset{ordem[0]}
    ensures ordem[1].tempo <= c.tempo
  {
    assert ordem == [ordem[0]] + ordem[1..];
    assert multiset(ordem) - multiset{ordem[0]} == multiset(ordem[1..]);
    assert c in ordem[1..];
    var k :| 1 <= k < |ordem| && ordem[k] == c;
    assert k == 1 || Tempo(ordem[1]) <= Tempo(ordem[k]);
  }

  /** With at least two correct answers, the second slot holds a correct
      answer that is earliest among all but the first, and its player is
      awarded 50. */
  lemma SegundoGanhaCinquenta(respostas: seq<Resposta>, opcaoCorreta: string, ordem: seq<Resposta>, l: seq<Pontuacao>)
    requires OrdemValida(ordem, respostas, opcaoCorreta)
    requires Enumera(l, Premios(ordem))
    requires |Corretas(respostas, opcaoCorreta)| > 1
    ensures |ordem| > 1 && ordem[1] in respostas && ordem[1].opcao == opcaoCorreta
    ensures forall c :: c in multiset(Corretas(respostas, opcaoCorreta)) - multiset{ordem[0]} ==> ordem[1].tempo <= c.tempo
    ensures Pontuacao(ordem[1].player, 50) in l
  {
    assert |ordem| == |multiset(ordem)| == |multiset(Corretas(respostas, opcaoCorreta))|;
    OrdemSoTemCorretas(ordem, respostas, opcaoCorreta, ordem[1]);
    forall c | c in multiset(Corretas(respostas, opcaoCorreta)) - multiset{ordem[0]} ensures ordem[1].tempo <= c.tempo {
      SegundoMenorDoResto(ordem, c);
    }
    assert Premios(ordem)[ordem[1].player] == 50;
    var i :| 0 <= i < |l| && l[i].player == ordem[1].player;
    assert l[i] == Pontuacao(ordem[1].player, 50);
  }

  /** In a list without repeated players, `PontosDe` is the one entry's
      points, or 0 when the player has no entry. */
  lemma {:induction false} PontosDeSemRepeticao(l: seq<Pontuacao>, player: string)
    requires forall i, j :: 0 <= i < j < |l| ==> l[i].player != l[j].player
    ensures (forall i :: 0 <= i < |l| ==> l[i].player != player) ==> PontosDe(l, player) == 0
    ensures forall i :: 0 <= i < |l| && l[i].player == player ==> PontosDe(l, player) == l[i].pontos
  {
    if l != [] {
      PontosDeSemRepeticao(l[..|l| - 1], player);
    }
  }

  /** The delta a list enumerating `m` gives a player is `m`'s value for it,
      or nothing when `m` has no entry for it. */
  lemma PontosDeEnumeracao(l: seq<Pontuacao>, m: map<string, int>, player: string)
    requires Enumera(l, m)
    ensures PontosDe(l, player) == if player in m then m[player] else 0
  {
    PontosDeSemRepeticao(l, player);
    if player in m {
      var i :| 0 <= i < |l| && l[i].player == player;
    }
  }

  /** The only sorted arrangement of two answers with different receipt
      times puts the earlier one first. */
  lemma DoisOrdenados(ordem: seq<Resposta>, a: Resposta, b: Resposta)
    requires Ordenado(ordem, Tempo) && multiset(ordem) == multiset{a, b}
    requires a.tempo < b.tempo
    ensures ordem == [a, b]
  {
  }

  /** The answers of the example below. */
  function RespostasDoExemplo(): seq<Resposta> {
    [Resposta("Ada", "B", 1000), Resposta("Hedy", "B", 1500), Resposta("Grace", "C", 500)]
  }

  /** In the example below, every sorted order of the correct answers puts
      Ada first and Hedy second. */
  lemma OrdemDoExemplo(ordem: seq<Resposta>)
    requires OrdemValida(ordem, RespostasDoExemplo(), "B")
    ensures ordem == [Resposta("Ada", "B", 1000), Resposta("Hedy", "B", 1500)]
  {
    var ada, hedy := Resposta("Ada", "B", 1000), Resposta("Hedy", "B", 1500);
    var respostas := RespostasDoExemplo();
    assert respostas[..2] == [ada, hedy] && [ada, hedy][..1] == [ada] && [ada][..0] == [];
    assert Corretas([ada], "B") == [ada];
    assert Corretas([ada, hedy], "B") == [ada, hedy];
    assert Corretas(respostas, "B") == [ada, hedy];
    DoisOrdenados(ordem, ada, hedy);
  }

  /** Three players answer; the correct option is "B": Ada answers "B" at
      1000, Hedy "B" at 1500, Grace the wrong "C" at 500. Whatever the sort
      and map orders, Ada gets 100, Hedy 50 and Grace nothing. */
  lemma AdaGraceHedy(ordem: seq<Resposta>, l: seq<Pontuacao>)
    requires OrdemValida(ordem, RespostasDoExemplo(), "B")
    requires Enumera(l, Premios(ordem))
    ensures PontosDe(l, "Ada") == 100 && PontosDe(l, "Hedy") == 50 && PontosDe(l, "Grace") == 0
  {
    OrdemDoExemplo(ordem);
    var m := Premios(ordem);
    assert m == map["Ada" := 100, "Hedy" := 50];
    PontosDeEnumeracao(l, m, "Ada");
    PontosDeEnumeracao(l, m, "Hedy");
    PontosDeEnumeracao(l, m, "Grace");
  }
}
