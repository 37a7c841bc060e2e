/**
  The connected-player registry of internal/server/conn.go: `ServerJogo`
  keeps the ordered list of registered player handles and a semaphore of
  capacity `maxJogadores` that bounds how many client handlers run at once.
  The mutex only serialises these operations, so each one is a method that
  runs on its own; sockets are replaced by what the handler reads from them.
 */
module Servidor {
  import opened Colecoes

  datatype Option<T> = None | Some(valor: T)

  /** A connected client. The registry stores handles, so identity (not the
      name) is what `removerJogador` looks for. */
  class Jogador {
    var nome: string
    var pontuacao: int

    /** `&Jogador{Conn: conn}`: no name yet, no points. */
    constructor ()
      ensures nome == "" && pontuacao == 0
    {
      nome := "";
      pontuacao := 0;
    }
  }

  /* ---------- removal by identity ---------- */

  /** The index of the first occurrence of `x` in `s`. */
  function Posicao<T(==)>(s: seq<T>, x: T): (i: nat)
    requires x in s
    ensures i < |s| && s[i] == x && x !in s[..i]
  {
    if s[0] == x then 0
    else
      var i := Posicao(s[1..], x);
      assert s[..i + 1] == [s[0]] + s[1..][..i];
      i + 1
  }

  /** The list without the first occurrence of `x`. */
  function RemoverPrimeiro<T(==)>(s: seq<T>, x: T): (r: seq<T>)
    ensures |r| == if x in s then |s| - 1 else |s|
  {
    if s == [] then []
    else if s[0] == x then s[1..]
    else [s[0]] + RemoverPrimeiro(s[1..], x)
  }

  /** Removal deletes the first occurrence of `x`, keeping the rest in
      order, and leaves a list without `x` unchanged. */
  lemma {:induction false} RemoverPrimeiroNaPosicao<T>(s: seq<T>, x: T)
    ensures x !in s ==> RemoverPrimeiro(s, x) == s
    ensures x in s ==> RemoverPrimeiro(s, x) == s[..Posicao(s, x)] + s[Posicao(s, x) + 1..]
  {
    if x in s {
      RemoverNoIndice(s, x, Posicao(s, x));
    } else if s != [] {
      assert s == [s[0]] + s[1..];
      RemoverPrimeiroNaPosicao(s[1..], x);
    }
  }

  /** Where the first occurrence is known, removal splices it out there. */
  lemma {:induction false} RemoverNoIndice<T>(s: seq<T>, x: T, i: int)
    requires 0 <= i < |s| && s[i] == x && x !in s[..i]
    ensures RemoverPrimeiro(s, x) == s[..i] + s[i + 1..]
  {
    if i == 0 {
      assert s[..0] + s[1..] == s[1..];
    } else {
      var t := s[1..];
      assert s[0] != x by { assert s[0] == s[..i][0]; }
      assert t[..i - 1] == s[1..i];
      RemoverNoIndice(t, x, i - 1);
      assert s[..i] == [s[0]] + t[..i - 1];
      assert s[i + 1..] == t[i..];
    }
  }

  /** Removing from a list without repetition leaves no copy of `x`, adds
      nothing and keeps the list free of repetition. */
  lemma RemoverSemRepeticao<T>(s: seq<T>, x: T)
    requires SemRepeticao(s)
    ensures x !in RemoverPrimeiro(s, x)
    ensures forall y :: y in RemoverPrimeiro(s, x) ==> y in s
    ensures SemRepeticao(RemoverPrimeiro(s, x))
    ensures x in s ==> |RemoverPrimeiro(s, x)| == |s| - 1
  {
    RemoverPrimeiroNaPosicao(s, x);
  }

  /** Removing an element just appended to a list that lacked it gives
      back that list. */
  lemma {:induction false} RemoverAposAcrescentar<T>(s: seq<T>, x: T)
    requires x !in s
    ensures RemoverPrimeiro(s + [x], x) == s
  {
    assert (s + [x])[..|s|] == s;
    RemoverNoIndice(s + [x], x, |s|);
  }

  /* ---------- adding points by name ---------- */

  /** A player's name and score, as the handles hold them. */
  datatype Registro = Registro(nome: string, pontuacao: int)

  /** The name and score of each handle, in list order. */
  ghost function Registros(s: seq<Jogador>): (r: seq<Registro>)
    reads set j | j in s
    ensures |r| == |s|
    ensures forall i :: 0 <= i < |s| ==> r[i] == Registro(s[i].nome, s[i].pontuacao)
  {
    if s == [] then [] else [Registro(s[0].nome, s[0].pontuacao)] + Registros(s[1..])
  }

  /** Handles whose names and scores are those of `rs`. */
  lemma RegistrosDe(s: seq<Jogador>, rs: seq<Registro>)
    requires |s| == |rs|
    requires forall k :: 0 <= k < |s| ==> s[k].nome == rs[k].nome && s[k].pontuacao == rs[k].pontuacao
    ensures Registros(s) == rs
  {
  }

  /** Position `k` holds the first entry called `nome`. */
  ghost predicate PrimeiroCom(rs: seq<Registro>, nome: string, k: int) {
    && 0 <= k < |rs|
    && rs[k].nome == nome
    && forall m :: 0 <= m < k ==> rs[m].nome != nome
  }

  /** The records after adding `pontos` to the first entry called `nome`. */
  function SomarAoPrimeiro(rs: seq<Registro>, nome: string, pontos: int): (r: seq<Registro>)
    ensures |r| == |rs|
    ensures forall k :: 0 <= k < |rs| ==> r[k].nome == rs[k].nome
    ensures forall k :: 0 <= k < |rs| ==>
      r[k].pontuacao == rs[k].pontuacao + (if PrimeiroCom(rs, nome, k) then pontos else 0)
  {
    if rs == [] then []
    else if rs[0].nome == nome then [Registro(rs[0].nome, rs[0].pontuacao + pontos)] + rs[1..]
    else
      var resto := SomarAoPrimeiro(rs[1..], nome, pontos);
      assert forall k :: 1 <= k < |rs| ==> (PrimeiroCom(rs, nome, k) <==> PrimeiroCom(rs[1..], nome, k - 1));
      [rs[0]] + resto
  }

  /** A name nobody has: nothing changes. */
  lemma SomarAusente(rs: seq<Registro>, nome: string, pontos: int)
    requires forall k :: 0 <= k < |rs| ==> rs[k].nome != nome
    ensures SomarAoPrimeiro(rs, nome, pontos) == rs
  {
  }

  /** A name somebody has: exactly one entry, the first such, gains
      `pontos`; every other entry is unchanged. */
  lemma SomarPresente(rs: seq<Registro>, nome: string, pontos: int, i: int)
    requires PrimeiroCom(rs, nome, i)
    ensures SomarAoPrimeiro(rs, nome, pontos)[i] == Registro(nome, rs[i].pontuacao + pontos)
    ensures forall k :: 0 <= k < |rs| && k != i ==> SomarAoPrimeiro(rs, nome, pontos)[k] == rs[k]
  {
  }

  /* ---------- strings.TrimSpace ---------- */

  /** Go's `unicode.IsSpace`: the Unicode White_Space characters. */
  predicate EhEspaco(c: char) {
    || ('\t' <= c <= '\r')
    || c == ' ' || c == '\U{0085}' || c == '\U{00A0}' || c == '\U{1680}'
    || ('\U{2000}' <= c <= '\U{200A}')
    || c == '\U{2028}' || c == '\U{2029}' || c == '\U{202F}' || c == '\U{205F}' || c == '\U{3000}'
  }

  /** `s` without its leading white space. */
  function TrimInicio(s: string): (r: string)
    ensures |r| <= |s| && r == s[|s| - |r|..]
    ensures forall k :: 0 <= k < |s| - |r| ==> EhEspaco(s[k])
    ensures r != [] ==> !EhEspaco(r[0])
  {
    if s != [] && EhEspaco(s[0]) then
      var r := TrimInicio(s[1..]);
      assert s[|s| - |r|..] == s[1..][|s| - 1 - |r|..];
      r
    else s
  }

  /** `s` without its trailing white space. */
  function TrimFim(s: string): (r: string)
    ensures |r| <= |s| && r == s[..|r|]
    ensures forall k :: |r| <= k < |s| ==> EhEspaco(s[k])
    ensures r != [] ==> !EhEspaco(r[|r| - 1])
  {
    if s != [] && EhEspaco(s[|s| - 1]) then TrimFim(s[..|s| - 1]) else s
  }

  /** `strings.TrimSpace`. */
  function TrimSpace(s: string): (r: string)
    ensures r != [] ==> !EhEspaco(r[0]) && !EhEspaco(r[|r| - 1])
  {
    TrimFim(TrimInicio(s))
  }

  /** `TrimSpace` strips exactly the white space around the text: spaces,
      then text that neither starts nor ends with a space, then spaces,
      trims to that text. */
  lemma {:induction false} TrimSpaceDeAcolchoado(a: string, t: string, b: string)
    requires forall k :: 0 <= k < |a| ==> EhEspaco(a[k])
    requires forall k :: 0 <= k < |b| ==> EhEspaco(b[k])
    requires t != [] ==> !EhEspaco(t[0]) && !EhEspaco(t[|t| - 1])
    ensures TrimSpace(a + t + b) == t
  {
    if t == [] {
      assert a + t + b == (a + b) + [];
      TrimInicioDeAcolchoado(a + b, []);
    } else {
      assert a + t + b == a + (t + b);
      TrimInicioDeAcolchoado(a, t + b);
      TrimFimDeAcolchoado(t, b);
    }
  }

  lemma {:induction false} TrimInicioDeAcolchoado(a: string, u: string)
    requires forall k :: 0 <= k < |a| ==> EhEspaco(a[k])
    requires u != [] ==> !EhEspaco(u[0])
    ensures TrimInicio(a + u) == u
  {
    if a != [] {
      assert (a + u)[1..] == a[1..] + u;
      TrimInicioDeAcolchoado(a[1..], u);
    } else {
      assert a + u == u;
    }
  }

  lemma {:induction false} TrimFimDeAcolchoado(u: string, b: string)
    requires forall k :: 0 <= k < |b| ==> EhEspaco(b[k])
    requires u != [] ==> !EhEspaco(u[|u| - 1])
    ensures TrimFim(u + b) == u
  {
    if b != [] {
      assert (u + b)[..|u + b| - 1] == u + b[..|b| - 1];
      TrimFimDeAcolchoado(u, b[..|b| - 1]);
    } else {
      assert u + b == u;
    }
  }

  /** A trimmed name trims to itself. */
  lemma TrimSpaceIdempotente(s: string)
    ensures TrimSpace(TrimSpace(s)) == TrimSpace(s)
  {
  }

  /* ---------- the registry ---------- */

  class ServerJogo {
    /** The registered players, in registration order. */
    var jogadores: seq<Jogador>
    /** `len(semaforo)`: how many client handlers hold a slot. */
    var admitidos: nat
    /** `cap(semaforo)`. */
    const maxJogadores: nat
    /** The handles of the client handlers that hold a slot. */
    ghost var sessoes: set<Jogador>

    /** Every slot belongs to one running handler, there are never more
        than `maxJogadores` of them, and the list holds each running
        handler's player at most once. */
    ghost predicate Valid()
      reads this
    {
      && admitidos == |sessoes| <= maxJogadores
      && SemRepeticao(jogadores)
      && (forall j :: j in jogadores ==> j in sessoes)
    }

    /** `NovoServer(maxJogadores)`: no players, no slot taken. */
    constructor NovoServer(max: nat)
      ensures Valid()
      ensures jogadores == [] && admitidos == 0 && maxJogadores == max && sessoes == {}
    {
      jogadores := [];
      admitidos := 0;
      maxJogadores := max;
      sessoes := {};
    }

    /** `addJogador`: the player goes at the end, the rest stays as it was.
        Each handler adds its own player once. */
    method AddJogador(jogador: Jogador)
      requires Valid() && jogador in sessoes && jogador !in jogadores
      modifies this`jogadores
      ensures Valid()
      ensures jogadores == old(jogadores) + [jogador]
    {
      jogadores := jogadores + [jogador];
    }

    /** `removerJogador`: the first entry that is this very handle goes, the
        others keep their order; an unregistered handle changes nothing. */
    method RemoverJogador(jogador: Jogador)
      requires Valid()
      modifies this`jogadores
      ensures Valid()
      ensures jogadores == RemoverPrimeiro(old(jogadores), jogador)
      ensures jogador !in jogadores
    {
      RemoverSemRepeticao(jogadores, jogador);
      var i := 0;
      while i < |jogadores|
        invariant 0 <= i <= |jogadores|
        invariant jogador !in jogadores[..i]
        invariant jogadores == old(jogadores)
      {
        if jogadores[i] == jogador {
          RemoverNoIndice(jogadores, jogador, i);
          jogadores := jogadores[..i] + jogadores[i + 1..];
          return;
        }
        i := i + 1;
      }
      assert jogadores[..i] == jogadores;
      RemoverPrimeiroNaPosicao(jogadores, jogador);
    }

    /** `RetornarJogadores`: a fresh slice with the current list. */
    method RetornarJogadores() returns (copia: array<Jogador>)
      ensures fresh(copia)
      ensures copia[..] == jogadores
    {
      copia := new Jogador[|jogadores|](i reads this requires 0 <= i < |jogadores| => jogadores[i]);
    }

    /** `RetornarNumJogadores`: how many players are registered. */
    method RetornarNumJogadores() returns (n: int)
      ensures n == |jogadores|
    {
      n := |jogadores|;
    }

    /** `AtualizarPontos`: the first player with that name gains `pontos`;
        nobody else changes, and an unknown name changes nothing. The search
        stops at the first match, as the `break` does, and the credit is
        applied there. */
    method AtualizarPontos(nomeJogador: string, pontos: int)
      requires Valid()
      modifies set j | j in jogadores
      ensures Registros(jogadores) == SomarAoPrimeiro(old(Registros(jogadores)), nomeJogador, pontos)
    {
      ghost var antes := Registros(jogadores);
      var i := 0;
      while i < |jogadores| && jogadores[i].nome != nomeJogador
        invariant 0 <= i <= |jogadores|
        invariant forall k :: 0 <= k < i ==> jogadores[k].nome != nomeJogador
      {
        i := i + 1;
      }
      if i == |jogadores| {
        SomarAusente(antes, nomeJogador, pontos);
        return;
      }
      SomarPresente(antes, nomeJogador, pontos, i);
      ghost var depois := SomarAoPrimeiro(antes, nomeJogador, pontos);
      var jogador := jogadores[i];
      jogador.pontuacao := jogador.pontuacao + pontos;
      forall k | 0 <= k < |jogadores| && k != i
        ensures jogadores[k].nome == depois[k].nome && jogadores[k].pontuacao == depois[k].pontuacao
      {
        assert jogadores[k] != jogador;
      }
      RegistrosDe(jogadores, depois);
    }

    /** `pedirNome`: when the request is written (`escritaOk`) and a whole
        line comes back (`linha`), the name is that line trimmed and the
        score is reset; otherwise the handle is left alone. */
    method PedirNome(jogador: Jogador, escritaOk: bool, linha: Option<string>) returns (ok: bool)
      modifies jogador
      ensures ok <==> escritaOk && linha.Some?
      ensures ok ==> jogador.nome == TrimSpace(linha.valor) && jogador.pontuacao == 0
      ensures !ok ==> jogador.nome == old(jogador.nome) && jogador.pontuacao == old(jogador.pontuacao)
    {
      if !escritaOk {
        return false;
      }
      if linha.None? {
        return false;
      }
      jogador.nome := TrimSpace(linha.valor);
      jogador.pontuacao := 0;
      return true;
    }

    /** `aceitarConnect` meets a new client: with a free slot in the
        semaphore the client is admitted and its handler starts with a new
        handle, still unnamed and unregistered; with every slot taken the
        client is refused and nothing changes. */
    method Admitir() returns (jogador: Jogador?)
      requires Valid()
      modifies this`admitidos, this`sessoes
      ensures Valid()
      ensures old(admitidos) == maxJogadores ==>
        jogador == null && admitidos == old(admitidos) && sessoes == old(sessoes)
      ensures old(admitidos) < maxJogadores ==>
        && jogador != null && fresh(jogador)
        && jogador.nome == "" && jogador.pontuacao == 0
        && admitidos == old(admitidos) + 1 && sessoes == old(sessoes) + {jogador}
    {
      if admitidos == maxJogadores {
        return null;
      }
      jogador := new Jogador();
      admitidos := admitidos + 1;
      sessoes := sessoes + {jogador};
    }

    /** `controlaCliente` up to the wait for the end of the game: an
        admitted handler asks for the name; on success the player is
        registered and the handler keeps its slot, on failure the deferred
        clean-up runs and the slot is given back. Between `Admitir` and this
        step the handler holds a slot without a registered player. */
    method ControlarCliente(jogador: Jogador, escritaOk: bool, linha: Option<string>) returns (registrado: bool)
      requires Valid() && jogador in sessoes && jogador !in jogadores
      modifies this`jogadores, this`admitidos, this`sessoes, jogador
      ensures Valid()
      ensures registrado <==> escritaOk && linha.Some?
      ensures registrado ==>
        && jogadores == old(jogadores) + [jogador]
        && admitidos == old(admitidos) && sessoes == old(sessoes)
        && jogador.nome == TrimSpace(linha.valor) && jogador.pontuacao == 0
      ensures !registrado ==>
        && jogadores == old(jogadores)
        && admitidos == old(admitidos) - 1 && sessoes == old(sessoes) - {jogador}
        && jogador.nome == old(jogador.nome) && jogador.pontuacao == old(jogador.pontuacao)
    {
      registrado := PedirNome(jogador, escritaOk, linha);
      if !registrado {
        RemoverPrimeiroNaPosicao(jogadores, jogador);
        Encerrar(jogador);
        return;
      }
      AddJogador(jogador);
    }

    /** The deferred clean-up of `controlaCliente`: the player leaves the
        list and the handler gives its slot back. */
    method Encerrar(jogador: Jogador)
      requires Valid() && jogador in sessoes
      modifies this`jogadores, this`admitidos, this`sessoes
      ensures Valid()
      ensures jogadores == RemoverPrimeiro(old(jogadores), jogador)
      ensures admitidos == old(admitidos) - 1 && sessoes == old(sessoes) - {jogador}
    {
      RemoverJogador(jogador);
      sessoes := sessoes - {jogador};
      admitidos := admitidos - 1;
    }
  }
}
