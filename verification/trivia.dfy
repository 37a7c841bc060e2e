/**
  The game session of internal/server/LogicaTrivia.go: a `Jogo` holds the
  question list, the player table keyed by name and the index of the
  current round, which starts at -1 and only ever moves forward.
 */
module Trivia {
  import opened Colecoes
  import opened Placar

  /** A question; `respostaCorreta` is the exact option text that scores. */
  datatype Pergunta = Pergunta(enunciado: string, alternativas: seq<string>, respostaCorreta: string)

  /** A player in the table: the map stores references that never leave the
      `Jogo`, so a value stands for each. */
  datatype Jogador = Jogador(nome: string, pontuacao: int)

  /** One line of the scoreboard: "<posicao>. <nome> - <pontuacao> pontos". */
  datatype LinhaPlacar = LinhaPlacar(posicao: nat, nome: string, pontuacao: int)

  /** The zero `Pergunta{}` that `ProximaRodada` returns once the questions
      are exhausted. */
  const PerguntaVazia := Pergunta("", [], "")

  /** The table after adding each delta of `pontos`, in order, to the player
      it names; deltas for names not in the table are dropped. */
  function Aplicar(jogadores: map<string, Jogador>, pontos: seq<Pontuacao>): (r: map<string, Jogador>)
    ensures r.Keys == jogadores.Keys
    ensures forall k :: k in r ==>
      r[k].nome == jogadores[k].nome && r[k].pontuacao == jogadores[k].pontuacao + PontosDe(pontos, k)
  {
    if pontos == [] then jogadores
    else
      var anterior := Aplicar(jogadores, pontos[..|pontos| - 1]);
      var p := pontos[|pontos| - 1];
      if p.player in anterior then
        anterior[p.player := Jogador(anterior[p.player].nome, anterior[p.player].pontuacao + p.pontos)]
      else anterior
  }

  /** Applying the deltas of one scored round: every registered player gains
      exactly what the round awarded it (nothing if it was not awarded), no
      player is added or removed, and no score goes down. */
  lemma RodadaSomaPremios(jogadores: map<string, Jogador>, respostas: seq<Resposta>, opcaoCorreta: string,
                          ordem: seq<Resposta>, pontos: seq<Pontuacao>)
    requires OrdemValida(ordem, respostas, opcaoCorreta)
    requires Enumera(pontos, Premios(ordem))
    ensures Aplicar(jogadores, pontos).Keys == jogadores.Keys
    ensures forall k :: k in jogadores ==>
      Aplicar(jogadores, pontos)[k].pontuacao ==
        jogadores[k].pontuacao + (if k in Premios(ordem) then Premios(ordem)[k] else 0)
    ensures forall k :: k in jogadores ==> Aplicar(jogadores, pontos)[k].pontuacao >= jogadores[k].pontuacao
  {
    forall k | k in jogadores
      ensures Aplicar(jogadores, pontos)[k].pontuacao ==
        jogadores[k].pontuacao + (if k in Premios(ordem) then Premios(ordem)[k] else 0)
    {
      PontosDeEnumeracao(pontos, Premios(ordem), k);
    }
  }

  /** `s` lists the players of the table, each exactly once. */
  ghost predicate ListaOsJogadores(s: seq<Jogador>, jogadores: map<string, Jogador>) {
    && (forall i :: 0 <= i < |s| ==> s[i].nome in jogadores && s[i] == jogadores[s[i].nome])
    && (forall i, j :: 0 <= i < j < |s| ==> s[i].nome != s[j].nome)
    && (forall nome :: nome in jogadores ==> exists i :: 0 <= i < |s| && s[i].nome == nome)
  }

  /** Reordering a list of the players (as the in-place sort does) still
      lists every player exactly once. */
  lemma PermutacaoListaOsJogadores(s: seq<Jogador>, t: seq<Jogador>, jogadores: map<string, Jogador>)
    requires ListaOsJogadores(s, jogadores) && multiset(t) == multiset(s)
    ensures ListaOsJogadores(t, jogadores)
  {
    assert SemRepeticao(s);
    PermutacaoSemRepeticao(s, t);
    forall i | 0 <= i < |t| ensures t[i].nome in jogadores && t[i] == jogadores[t[i].nome] {
      assert t[i] in multiset(s);
    }
    forall i, j | 0 <= i < j < |t| ensures t[i].nome != t[j].nome {
      assert t[i] != t[j];
    }
    forall nome | nome in jogadores ensures exists i :: 0 <= i < |t| && t[i].nome == nome {
      var k :| 0 <= k < |s| && s[k].nome == nome;
      assert s[k] in multiset(t);
      var i :| 0 <= i < |t| && t[i] == s[k];
    }
  }

  /** The scoreboard's sort key: `Pontuacao > ` as the less function means
      ascending order of the negated score. */
  function Classificacao(j: Jogador): int { -j.pontuacao }

  /** What `range` over the table gives: a list of the players, each once. */
  lemma EnumeracaoListaOsJogadores(lista: seq<Jogador>, chaves: seq<string>, jogadores: map<string, Jogador>)
    requires forall k :: k in jogadores ==> jogadores[k].nome == k
    requires |lista| == |chaves| && SemRepeticao(chaves)
    requires forall i :: 0 <= i < |chaves| ==> chaves[i] in jogadores && lista[i] == jogadores[chaves[i]]
    requires forall k :: k in jogadores ==> k in chaves
    ensures ListaOsJogadores(lista, jogadores)
  {
  }

  /** `linhas` is a scoreboard of the table: one line per player, numbered
      from 1, every player exactly once with its current score, in
      non-increasing score order. */
  ghost predicate EhPlacar(linhas: seq<LinhaPlacar>, jogadores: map<string, Jogador>) {
    && |linhas| == |jogadores|
    && (forall i :: 0 <= i < |linhas| ==> linhas[i].posicao == i + 1)
    && (forall i :: 0 <= i < |linhas| ==>
         linhas[i].nome in jogadores && linhas[i].pontuacao == jogadores[linhas[i].nome].pontuacao)
    && (forall i, j :: 0 <= i < j < |linhas| ==> linhas[i].nome != linhas[j].nome)
    && (forall nome :: nome in jogadores ==> exists i :: 0 <= i < |linhas| && linhas[i].nome == nome)
    && (forall i, j :: 0 <= i < j < |linhas| ==> linhas[i].pontuacao >= linhas[j].pontuacao)
  }

  /** Numbering a list of all players sorted by descending score gives a
      scoreboard: one line per player, numbered from 1, in non-increasing
      score order. */
  lemma NumeracaoDosOrdenados(ordenados: seq<Jogador>, jogadores: map<string, Jogador>, linhas: seq<LinhaPlacar>)
    requires ListaOsJogadores(ordenados, jogadores) && Ordenado(ordenados, Classificacao)
    requires |linhas| == |ordenados|
    requires forall k :: 0 <= k < |linhas| ==> linhas[k] == LinhaPlacar(k + 1, ordenados[k].nome, ordenados[k].pontuacao)
    ensures EhPlacar(linhas, jogadores)
  {
    forall nome | nome in jogadores ensures exists i :: 0 <= i < |linhas| && linhas[i].nome == nome {
      var i :| 0 <= i < |ordenados| && ordenados[i].nome == nome;
      assert linhas[i].nome == nome;
    }
    forall i, j | 0 <= i < j < |linhas| ensures linhas[i].pontuacao >= linhas[j].pontuacao {
      assert Classificacao(ordenados[i]) <= Classificacao(ordenados[j]);
    }
    NomesCabemNaTabela(ordenados, jogadores);
  }

  /** A list naming every player of the table exactly once has one entry
      per player. */
  lemma NomesCabemNaTabela(s: seq<Jogador>, jogadores: map<string, Jogador>)
    requires ListaOsJogadores(s, jogadores)
    ensures |s| == |jogadores|
  {
    var nomes := set i | 0 <= i < |s| :: s[i].nome;
    assert nomes == jogadores.Keys;
    TamanhoDosNomes(s);
  }

  /** Distinct names: as many names as entries. */
  lemma {:induction false} TamanhoDosNomes(s: seq<Jogador>)
    requires forall i, j :: 0 <= i < j < |s| ==> s[i].nome != s[j].nome
    ensures |set i | 0 <= i < |s| :: s[i].nome| == |s|
  {
    if s != [] {
      var p := s[..|s| - 1];
      TamanhoDosNomes(p);
      var antes := set i | 0 <= i < |p| :: p[i].nome;
      var agora := set i | 0 <= i < |s| :: s[i].nome;
      assert agora == antes + {s[|s| - 1].nome};
      assert s[|s| - 1].nome !in antes;
    }
  }

  class Jogo {
    var perguntas: seq<Pergunta>
    var jogadores: map<string, Jogador>
    var rodadaAtual: int
    /** How many times `ProximaRodada` has been called since `NovoJogo`. */
    ghost var chamadas: nat

    /** The table is keyed by each player's own name, and the round index
        is the number of `ProximaRodada` calls minus one. */
    ghost predicate Valid()
      reads this
    {
      && rodadaAtual == chamadas - 1
      && forall k :: k in jogadores ==> jogadores[k].nome == k
    }

    /** `NovoJogo()`: no questions yet, no players, round -1. */
    constructor NovoJogo()
      ensures Valid()
      ensures perguntas == [] && jogadores == map[] && rodadaAtual == -1 && chamadas == 0
    {
      perguntas := [];
      jogadores := map[];
      rodadaAtual := -1;
      chamadas := 0;
    }

    /** The effect of a successful `CarregarPerguntas`: the question list
        becomes the decoded file contents. */
    method CarregarPerguntas(decodificadas: seq<Pergunta>)
      requires Valid()
      modifies this`perguntas
      ensures Valid() && perguntas == decodificadas
    {
      perguntas := decodificadas;
    }

    /** `AdicionarJogador(nome)`: insert-if-absent; a present player keeps
        its score, a new one starts at 0. */
    method AdicionarJogador(nome: string)
      requires Valid()
      modifies this`jogadores
      ensures Valid()
      ensures nome in old(jogadores) ==> jogadores == old(jogadores)
      ensures nome !in old(jogadores) ==> jogadores == old(jogadores)[nome := Jogador(nome, 0)]
    {
      if nome !in jogadores {
        jogadores := jogadores[nome := Jogador(nome, 0)];
      }
    }

    /** `ObterPlacar()`, up to the text: one line per player, numbered from
        1, every player exactly once with its current score, in
        non-increasing score order (ties in any order). */
    method ObterPlacar() returns (linhas: seq<LinhaPlacar>)
      requires Valid()
      ensures EhPlacar(linhas, jogadores)
    {
      var lista: seq<Jogador>;
      ghost var chaves: seq<string>;
      lista, chaves := PercorrerMapa(jogadores, (nome: string, j: Jogador) => j);
      var fatia := new Jogador[|lista|](k requires 0 <= k < |lista| => lista[k]);
      assert fatia[..] == lista;
      OrdenarFatia(fatia, Classificacao);
      var ordenados := fatia[..];
      EnumeracaoListaOsJogadores(lista, chaves, jogadores);
      PermutacaoListaOsJogadores(lista, ordenados, jogadores);
      linhas := Numerar(ordenados);
      NumeracaoDosOrdenados(ordenados, jogadores, linhas);
    }

    /** The loop of `ObterPlacar` that writes the lines: position `i + 1`
        for the `i`-th player of the sorted list. */
    static method Numerar(ordenados: seq<Jogador>) returns (linhas: seq<LinhaPlacar>)
      ensures |linhas| == |ordenados|
      ensures forall k :: 0 <= k < |linhas| ==> linhas[k] == LinhaPlacar(k + 1, ordenados[k].nome, ordenados[k].pontuacao)
    {
      linhas := [];
      for i := 0 to |ordenados|
        invariant |linhas| == i
        invariant forall k :: 0 <= k < i ==> linhas[k] == LinhaPlacar(k + 1, ordenados[k].nome, ordenados[k].pontuacao)
      {
        linhas := linhas + [LinhaPlacar(i + 1, ordenados[i].nome, ordenados[i].pontuacao)];
      }
    }

    /** `ProcessarRespostasDaRodada(respostas)`: outside a valid round
        nothing changes; otherwise the round is scored against the current
        question and the deltas are added to the table. The ghost results
        are the deltas and the sorted order that scoring went through. */
    method ProcessarRespostasDaRodada(respostas: seq<Resposta>)
      returns (ghost pontosDaRodada: seq<Pontuacao>, ghost ordem: seq<Resposta>)
      requires Valid()
      modifies this`jogadores
      ensures Valid()
      ensures !(0 <= rodadaAtual < |perguntas|) ==> jogadores == old(jogadores)
      ensures 0 <= rodadaAtual < |perguntas| ==>
        && OrdemValida(ordem, respostas, perguntas[rodadaAtual].respostaCorreta)
        && Enumera(pontosDaRodada, Premios(ordem))
        && jogadores == Aplicar(old(jogadores), pontosDaRodada)
    {
      if rodadaAtual < 0 || rodadaAtual >= |perguntas| {
        return [], [];
      }
      var perguntaAtual := perguntas[rodadaAtual];
      var lista: seq<Pontuacao>;
      lista, ordem := CalcularPontos(respostas, perguntaAtual.respostaCorreta);
      pontosDaRodada := lista;
      SomarPontos(lista);
    }

    /** The loop of `ProcessarRespostasDaRodada` that adds each delta to the
        player it names, skipping names not in the table. */
    method SomarPontos(lista: seq<Pontuacao>)
      requires Valid()
      modifies this`jogadores
      ensures Valid()
      ensures jogadores == Aplicar(old(jogadores), lista)
    {
      for i := 0 to |lista|
        invariant jogadores == Aplicar(old(jogadores), lista[..i])
        invariant forall k :: k in jogadores ==> jogadores[k].nome == k
      {
        assert lista[..i + 1][..i] == lista[..i];
        var pontuacao := lista[i];
        if pontuacao.player in jogadores {
          var jogador := jogadores[pontuacao.player];
          jogadores := jogadores[pontuacao.player := Jogador(jogador.nome, jogador.pontuacao + pontuacao.pontos)];
        }
      }
      assert lista[..|lista|] == lista;
    }

    /** `ProximaRodada()`: the index always advances; the k-th call since
        `NovoJogo` yields question k-1 while there is one, and the zero
        question with `false` afterwards. */
    method ProximaRodada() returns (pergunta: Pergunta, continua: bool)
      requires Valid()
      modifies this`rodadaAtual, this`chamadas
      ensures Valid()
      ensures rodadaAtual == old(rodadaAtual) + 1 && chamadas == old(chamadas) + 1
      ensures continua <==> chamadas <= |perguntas|
      ensures continua ==> pergunta == perguntas[chamadas - 1]
      ensures !continua ==> pergunta == PerguntaVazia
    {
      rodadaAtual := rodadaAtual + 1;
      chamadas := chamadas + 1;
      if rodadaAtual >= |perguntas| {
        return PerguntaVazia, false;
      }
      return perguntas[rodadaAtual], true;
    }
  }
}
