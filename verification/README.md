# Trivia multiplayer server: the game bookkeeping, in Dafny

This project models the bookkeeping side of a Go server for a live
multiplayer trivia match. It covers three parts:

- **Round scoring** (`CalcularPontos`, module `Placar`). Only answers whose
  option text is exactly the correct option count. They are sorted by
  receipt time. The earliest player is set to 100 points and the second to
  50 in a map, and the map is turned into a list of deltas. The same
  function is declared word for word in `internal/server/placar.go` and
  `internal/server/LogicaTrivia.go`. It is modelled once; the rows below
  cite whichever copy holds the lines in question.
- **The game session** (`Jogo`, module `Trivia`). It holds the question
  list, the player table keyed by name and the index of the current round.
  The index starts at -1. Players are added insert-if-absent. Rounds
  advance one question at a time. Round deltas are added to the table, and
  a scoreboard lists the players by descending score.
- **The connected-player registry** (`ServerJogo`, module `Servidor`). It
  holds the ordered list of player handles. Handles are appended, removed
  by identity, copied out, counted and credited by name. A semaphore of
  capacity `maxJogadores` bounds how many client handlers run at once.

Module `Colecoes` models the two Go runtime facilities the code relies on:

- `sort.Slice`: an in-place sort that need not be stable. It is modelled
  as an insertion sort on an `array`, and callers rely only on its
  contract.
- `range` over a map, which visits the entries in an unspecified order. It
  is modelled as a loop that picks the next key with `:|`.

**Unspecified orders.** Go leaves two orders open: how equal receipt times
are ordered by the sort, and in what order the map is listed. So
`CalcularPontos` returns, as a ghost value, the sorted order `ordem` that it
went through. Every scoring lemma holds for every `ordem` that is a sorted
permutation of the correct answers (`OrdemValida`). It also holds for every
list that enumerates the resulting map (`Enumera`).

**Scoring rule.** Other revisions of this game match a prefix of the option
and halve the award for every further correct answer (100, 50, 25, ...).
This code compares the whole option text and awards only 100 and 50; the
third and later correct answers earn nothing. This model follows the code.

**Sort keys and the empty question.** Receipt times (`time.Time`) are
integers. The less function `Before` of the answer sort
(`internal/server/LogicaTrivia.go:107-109`) becomes the key `Placar.Tempo`,
ordered by `<`. The less function `Pontuacao >` of the scoreboard sort
(`internal/server/LogicaTrivia.go:81-83`) becomes the key
`Trivia.Classificacao`, the negated score, so ascending keys are descending
scores. The zero value `Pergunta{}` returned after the last round
(`internal/server/LogicaTrivia.go:144`) is `Trivia.PerguntaVazia`. The scoreboard text of
`ObterPlacar` is modelled as a list of `LinhaPlacar(posicao, nome, pontuacao)`
lines.

## Model

| member | source | states |
|---|---|---|
| Colecoes.OrdenarFatia | internal/server/placar.go:30-32 | the array ends up in non-decreasing key order and is a permutation (same multiset) of what it held |
| Colecoes.PercorrerMapa | internal/server/placar.go:42-45 | the list has one element per map entry, built from that entry, with no key visited twice and every key visited |
| Colecoes.PermutacaoSemRepeticao | internal/server/LogicaTrivia.go:81-83 | a permutation of a list without repeated elements has no repeated elements either |
| Placar.Corretas | internal/server/placar.go:22-27 | an answer is kept exactly when it is an input answer whose option equals the correct one, and the result is no longer than the input |
| Placar.FiltrarCorretas | internal/server/LogicaTrivia.go:99-104 | the filtering loop returns exactly the correct answers, in input order |
| Placar.ListarPontos | internal/server/LogicaTrivia.go:120-122 | the listing loop returns one entry per map key with its value and no player twice |
| Placar.CalcularPontos | internal/server/LogicaTrivia.go:98-125 | the order scored is a sorted permutation of the correct answers, and the result lists each winner of that order exactly once with its award; it has at most two entries, each worth 100 or 50, each for a player with a correct answer, and it is empty exactly when no answer is correct |
| Placar.OrdemSoTemCorretas | internal/server/placar.go:22-32 | the sorted slice holds an answer if and only if it is an input answer with exactly the correct option |
| Placar.Premios | internal/server/LogicaTrivia.go:111-117 | the awards map is empty without correct answers; it names only the players of the first two sorted slots; the first slot's player gets 100 unless it also holds the second slot, and the second slot's player gets 50 (the later write wins) |
| Placar.PremiadosAcertaram | internal/server/LogicaTrivia.go:100-117 | every listed player sent an answer whose option equals the correct one exactly |
| Placar.PremiadosSaoOsDoisPrimeiros | internal/server/LogicaTrivia.go:111-122 | at most two entries, each worth 100 or 50, each for the player of the first or second sorted slot, with a total of at most 150 |
| Placar.SoOsDoisPrimeirosPontuam | internal/server/placar.go:34-40 | a player in neither of the first two sorted slots is awarded nothing, so a third or later correct answer earns nothing |
| Placar.CorretasVazia | internal/server/placar.go:22-27 | with no correct answer the filter keeps nothing |
| Placar.ResultadoVazioSemCorretas | internal/server/LogicaTrivia.go:112-124 | the result is empty if and only if no input answer has the correct option (covers the empty input) |
| Placar.ErradasNaoPontuam | internal/server/LogicaTrivia.go:100-104 | a player none of whose answers matches the correct option exactly gets no entry |
| Placar.PrimeiroGanhaCem | internal/server/LogicaTrivia.go:107-117 | given a correct answer, the first slot is a correct answer with the minimal receipt time, and its player is listed with 100, or with 50 when the same player also holds the second slot |
| Placar.SegundoGanhaCinquenta | internal/server/placar.go:34-40 | given two correct answers, the second slot is a correct answer that is earliest among all but the first, and its player is listed with 50 |
| Placar.PontosDeEnumeracao | internal/server/LogicaTrivia.go:133-138 | summing a player's entries in a listing of the map gives the map's value for it, or 0 when it has none |
| Placar.OrdemDoExemplo | internal/server/placar.go:30-32 | in the three-player example, every admissible sorted order is Ada's answer and then Hedy's |
| Placar.AdaGraceHedy | internal/server/placar.go:21-48 | Ada answers "B" at 1000, Hedy "B" at 1500 and Grace "C" at 500, with "B" correct; whatever the sort and map orders, Ada gets 100, Hedy 50 and Grace 0 |
| Trivia.Aplicar | internal/server/LogicaTrivia.go:134-138 | applying deltas keeps the same players and names, and each player's score grows by the sum of the deltas naming it; deltas for unknown names are dropped |
| Trivia.RodadaSomaPremios | internal/server/LogicaTrivia.go:131-138 | after a scored round each registered player has gained exactly its award, or 0 if it won none; nobody is added or removed and no score goes down |
| Trivia.Jogo.NovoJogo | internal/server/LogicaTrivia.go:40-45 | a new game has no questions, no players and round index -1 |
| Trivia.Jogo.CarregarPerguntas | internal/server/LogicaTrivia.go:55-56 | a successful load replaces the question list with the decoded one |
| Trivia.Jogo.AdicionarJogador | internal/server/LogicaTrivia.go:65-70 | a present name leaves the table unchanged, score included; a new name is added with score 0 |
| Trivia.EnumeracaoListaOsJogadores | internal/server/LogicaTrivia.go:75-78 | copying the table into a list lists every player exactly once |
| Trivia.PermutacaoListaOsJogadores | internal/server/LogicaTrivia.go:81-83 | after the in-place sort the list still names every player exactly once |
| Trivia.NomesCabemNaTabela | internal/server/LogicaTrivia.go:75-78 | a list naming every player exactly once has as many entries as the table |
| Trivia.NumeracaoDosOrdenados | internal/server/LogicaTrivia.go:80-90 | numbering the players sorted by descending score gives a scoreboard: one line per player numbered from 1, current scores, non-increasing |
| Trivia.Jogo.Numerar | internal/server/LogicaTrivia.go:88-90 | the i-th line is numbered i+1 and carries the i-th player's name and score |
| Trivia.Jogo.ObterPlacar | internal/server/LogicaTrivia.go:73-94 | the scoreboard has one line per player, numbered from 1, every player exactly once with its current score, in non-increasing score order (ties in any order) |
| Trivia.Jogo.ProcessarRespostasDaRodada | internal/server/LogicaTrivia.go:127-139 | outside a valid round the table is unchanged; otherwise the answers are scored against the current question and exactly those deltas are added to the table |
| Trivia.Jogo.SomarPontos | internal/server/LogicaTrivia.go:133-138 | the loop leaves the table equal to the old table with the deltas applied in order |
| Trivia.Jogo.ProximaRodada | internal/server/LogicaTrivia.go:141-147 | the index always advances by one; the k-th call since NovoJogo returns question k-1 and true while k is at most the number of questions, and the zero question and false afterwards |
| Servidor.Jogador.constructor | internal/server/conn.go:89 | a new handle has an empty name and no points |
| Servidor.ServerJogo.NovoServer | internal/server/conn.go:32-40 | a new registry has no players, no slot taken and the given capacity |
| Servidor.Posicao | internal/server/conn.go:138-139 | the index found is an occurrence of the handle with none before it |
| Servidor.RemoverPrimeiro | internal/server/conn.go:138-143 | the list without the first occurrence of the handle, the rest in order, one shorter when the handle is present and unchanged when it is absent (the splice itself is proved by RemoverPrimeiroNaPosicao) |
| Servidor.RemoverPrimeiroNaPosicao | internal/server/conn.go:138-143 | removal deletes the first occurrence of the handle and keeps the order of the rest; an absent handle leaves the list unchanged |
| Servidor.RemoverNoIndice | internal/server/conn.go:138-141 | when the first occurrence is at index i, removal splices out exactly index i |
| Servidor.RemoverSemRepeticao | internal/server/conn.go:137-143 | removing from a list without repetition leaves no copy of the handle, adds nothing, keeps it free of repetition and shortens it by one when present |
| Servidor.RemoverAposAcrescentar | internal/server/conn.go:93-101 | removing a handle just appended to a list that lacked it gives back that list |
| Servidor.ServerJogo.AddJogador | internal/server/conn.go:125-129 | the handle is appended at the end and the earlier entries are unchanged |
| Servidor.ServerJogo.RemoverJogador | internal/server/conn.go:136-145 | the list becomes the old list without the first entry identical to the handle, and no entry is that handle afterwards |
| Servidor.ServerJogo.RetornarJogadores | internal/server/conn.go:167-174 | the result is newly allocated and holds the current list |
| Servidor.ServerJogo.RetornarNumJogadores | internal/server/conn.go:177-181 | the count is the length of the list |
| Servidor.SomarAoPrimeiro | internal/server/conn.go:188-193 | names are unchanged; the first entry with the name gains the points and every other entry keeps its score |
| Servidor.SomarAusente | internal/server/conn.go:188-193 | a name nobody has changes nothing |
| Servidor.SomarPresente | internal/server/conn.go:188-193 | when the first entry with the name is at index i, index i gains the points and every other entry is unchanged |
| Servidor.ServerJogo.AtualizarPontos | internal/server/conn.go:184-194 | afterwards the handles' names and scores are the old ones with the points added to the first player with that name |
| Servidor.TrimInicio | internal/server/conn.go:119 | the result is a suffix of the input, everything dropped is white space, and it does not start with white space |
| Servidor.TrimFim | internal/server/conn.go:119 | the result is a prefix of the input, everything dropped is white space, and it does not end with white space |
| Servidor.TrimSpace | internal/server/conn.go:119 | a trimmed name neither starts nor ends with white space, where white space is the set of Go's `unicode.IsSpace` as `EhEspaco` lists it: U+0009 to U+000D, U+0020, U+0085, U+00A0, U+1680, U+2000 to U+200A, U+2028, U+2029, U+202F, U+205F and U+3000 |
| Servidor.TrimSpaceDeAcolchoado | internal/server/conn.go:119 | white space, then text with no white space at either end, then white space, trims to exactly that text |
| Servidor.TrimSpaceIdempotente | internal/server/conn.go:119 | trimming a trimmed name changes nothing |
| Servidor.ServerJogo.PedirNome | internal/server/conn.go:108-122 | it succeeds exactly when the request is written and a whole line is read; then the name is the trimmed line and the score is 0, otherwise the handle is unchanged |
| Servidor.ServerJogo.Admitir | internal/server/conn.go:75-82 | with every slot taken the client is refused and nothing changes; otherwise one more slot is taken by a new, unnamed handle with 0 points, and the slot count never exceeds the capacity |
| Servidor.ServerJogo.ControlarCliente | internal/server/conn.go:88-101 | an admitted handler registers its player exactly when the name request is written and a whole line is read, with the trimmed line as name and 0 points, keeping its slot; otherwise the list and the handle are unchanged and the slot is given back |
| Servidor.ServerJogo.Encerrar | internal/server/conn.go:91-93 | a finishing handler's player leaves the list and its slot is given back |

## Left out

- Answer collection (`ColetarRespostas`, `lerResposta`) is left out. It fans goroutines into a channel under a wall-clock deadline and socket read deadlines. Its output is an arbitrary input list of answers to `CalcularPontos`.
- The mutex `jogadoresMutex` is left out. It only serialises the registry operations, and each one is modelled as a method that runs on its own.
- Sockets are left out: `IniciarServer`, the `Accept` loop of `aceitarConnect`, `controlaCliente` blocking on `sair`, `Parar`, `TransmitirMsg` and `ObterIPlocal`. What a handler reads from its connection becomes the parameters of `PedirNome` and `ControlarCliente`.
- The "servidor lotado" message written to a refused client is left out, as are the log lines printed by `addJogador`, `removerJogador`, `AdicionarJogador` and a successful `CarregarPerguntas`.
- Trivia.Jogo.CarregarPerguntas: the file read and the JSON decoding are left out. Only the effect of a successful load is modelled, with the decoded questions as a parameter. On an error the Go code may leave a partly decoded list; that is not modelled.
- Trivia.Jogo.ObterPlacar: the text formatting with `fmt.Sprintf` and `strings.Builder`, header and footer lines included, is left out. Only the lines' order, numbering, names and scores are modelled.
- Aliasing in the `Jogo` table is left out. The table stores `*Jogador` references that never leave the `Jogo`, so each is modelled as a value in a map.
- Servidor.ServerJogo.AddJogador: the model requires a handle that holds a slot and is not yet registered. That is how `controlaCliente` calls it: once, with its own new handle. Appending the same handle twice is not modelled.
- Servidor.ServerJogo.ControlarCliente: it requires the same of its handle, which `Admitir` provides; between the two calls the handler holds a slot while its name is pending. The name exchange itself is one step, so other handlers do not interleave inside it.
- Servidor.TrimSpace: the model works on Unicode characters, not on the bytes of a Go string. Invalid UTF-8 is therefore not modelled.
- Go's `int` is a fixed-width integer (32 or 64 bits, depending on the platform) that wraps on overflow; scores are unbounded integers here, so overflow is not modelled.
- Servidor.ServerJogo.NovoServer: the capacity is a `nat`. The panic that `make` raises for a negative channel capacity is not modelled.
- The source files `cmd/server/main.go`, `cmd/client/main.go`, `internal/client/conn.go`, `internal/client/main/ui_fyne.go` and the JSON tags of `internal/models/models.go` are not part of this model. They are an early prototype, the client, its GUI and encoding details.
