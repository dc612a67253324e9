/** The page component: the fetched entities, the page state
    (`pokemonList`, `selectedPokemon`, `evolutions`, `loading`), the events
    that change it, and what it renders from it. Network requests are not
    made here: their outcomes arrive as function parameters or as event
    payloads, a rejected request being `None`. */
module Page {
  import opened Outcome
  import opened Evolution
  import opened Text

  // ---------------------------------------------------------------------
  // Entities and API records
  // ---------------------------------------------------------------------

  datatype Sprites = Sprites(frontDefault: string, frontShiny: string)

  datatype Ability = Ability(name: string)

  datatype Stat = Stat(baseStat: int, name: string)

  /** A Pokémon detail record as the page reads it. */
  datatype Pokemon = Pokemon(
    id: nat,
    name: string,
    sprites: Sprites,
    abilities: seq<Ability>,
    stats: seq<Stat>,
    speciesUrl: string)

  /** The species record; `None` when its JSON has no `evolution_chain`. */
  datatype SpeciesRecord = SpeciesRecord(evolutionChainUrl: Option<string>)

  /** The evolution-chain record; `None` when its JSON has no `chain`. */
  datatype ChainRecord = ChainRecord(chain: Option<Chain>)

  /** The roster is ids 1 through 30. */
  const RosterSize: nat := 30

  // ---------------------------------------------------------------------
  // Roster loading
  // ---------------------------------------------------------------------

  /** `Promise.all`: the values in input order when every request resolved,
      and a rejection (`None`) as soon as any one of them rejected. */
  function GatherAll<T>(rs: seq<Option<T>>): (r: Option<seq<T>>)
    ensures r.Some? <==> forall i :: 0 <= i < |rs| ==> rs[i].Some?
    ensures r.Some? ==> |r.value| == |rs| && forall i :: 0 <= i < |rs| ==> r.value[i] == rs[i].value
  {
    if |rs| == 0 then Some([])
    else
      match GatherAll(rs[..|rs| - 1])
      case None => None
      case Some(vs) =>
        match rs[|rs| - 1]
        case None => None
        case Some(v) => Some(vs + [v])
  }

  /** The roster request: one detail request for each id 1..30, gathered with
      `Promise.all`. `fetchDetail(id)` is the outcome of fetching and decoding
      the detail record of `id`. */
  function LoadRoster(fetchDetail: nat -> Option<Pokemon>): (r: Option<seq<Pokemon>>)
    ensures r.Some? <==> forall id :: 1 <= id <= RosterSize ==> fetchDetail(id).Some?
    ensures r.Some? ==> |r.value| == RosterSize
    ensures r.Some? ==> forall i :: 0 <= i < RosterSize ==> r.value[i] == fetchDetail(i + 1).value
  {
    var requests := seq(RosterSize, i requires 0 <= i => fetchDetail(i + 1));
    var r := GatherAll(requests);
    assert r.Some? <==> forall id :: 1 <= id <= RosterSize ==> fetchDetail(id).Some? by {
      if forall id :: 1 <= id <= RosterSize ==> fetchDetail(id).Some? {
        assert forall i :: 0 <= i < RosterSize ==> requests[i].Some?;
      }
      if r.Some? {
        forall id | 1 <= id <= RosterSize
          ensures fetchDetail(id).Some?
        {
          assert requests[id - 1] == fetchDetail(id);
        }
      }
    }
    r
  }

  /** When the API answers each id with the record of that id, a loaded
      roster lists ids 1..30 in ascending order, whatever order the
      requests completed in. */
  lemma RosterInIdOrder(fetchDetail: nat -> Option<Pokemon>)
    requires forall id :: 1 <= id <= RosterSize && fetchDetail(id).Some? ==> fetchDetail(id).value.id == id
    ensures LoadRoster(fetchDetail).Some? ==>
      forall i :: 0 <= i < RosterSize ==> LoadRoster(fetchDetail).value[i].id == i + 1
  {
  }

  // ---------------------------------------------------------------------
  // Evolution resolution
  // ---------------------------------------------------------------------

  /** The two sequential requests behind an evolution lookup: the species
      record at the entity's species URL, then the chain record at the URL it
      names. Any rejected request or missing field ends in `None`. */
  function ResolveChain(
    p: Pokemon,
    fetchSpecies: string -> Option<SpeciesRecord>,
    fetchChain: string -> Option<ChainRecord>): (r: Option<Chain>)
    ensures forall c :: r == Some(c) <==>
      exists url :: fetchSpecies(p.speciesUrl) == Some(SpeciesRecord(Some(url)))
        && fetchChain(url) == Some(ChainRecord(Some(c)))
  {
    match fetchSpecies(p.speciesUrl)
    case None => None
    case Some(species) =>
      match species.evolutionChainUrl
      case None => None
      case Some(url) =>
        match fetchChain(url)
        case None => None
        case Some(record) => record.chain
  }

  /** The names `fetchEvolutions` stores: the flattened chain when resolution
      succeeded, the empty list from the `catch` when it failed. A successful
      resolution lists the name of every node, one entry per node, so empty
      means failure. */
  function EvolutionNames(outcome: Option<Chain>): (names: seq<string>)
    ensures |names| == 0 <==> outcome.None?
    ensures outcome.Some? ==> names[0] == outcome.value.name && |names| == Size(outcome.value)
    ensures outcome.Some? ==> forall x :: x in names <==> Contains(outcome.value, x)
  {
    match outcome
    case None => []
    case Some(c) =>
      FlattenLength(c);
      FlattenListsAll(c);
      Flatten(c)
  }

  // ---------------------------------------------------------------------
  // Page state machine
  // ---------------------------------------------------------------------

  datatype PageState = PageState(
    pokemonList: seq<Pokemon>,
    selected: Option<Pokemon>,
    evolutions: seq<string>,
    loading: bool)

  /** What the page reacts to: the roster request settling (its values, or
      `None` for a rejection), the evolution lookup started for `target`
      settling, a click on a roster button. */
  datatype Event =
    | RosterSettled(results: Option<seq<Pokemon>>)
    | EvolutionsSettled(target: Pokemon, outcome: Option<Chain>)
    | Clicked(pokemon: Pokemon)

  /** The request a transition starts: an evolution lookup for an entity. */
  datatype Effect = NoEffect | ResolveEvolutions(target: Pokemon)

  datatype Transition = Transition(next: PageState, effect: Effect)

  /** The state on mount: nothing loaded, loading screen shown. */
  function Initial(): (s: PageState)
    ensures s.loading && s.pokemonList == [] && s.selected.None? && s.evolutions == []
  {
    PageState([], None, [], true)
  }

  /** `fetchPokemonList` after its `await`. On success the list and the first
      entity are stored and a lookup for that entity starts; when the list is
      empty, `results[0]` is undefined, nothing is selected and the lookup
      fails at once inside its `try`, storing `[]`. On failure only the
      loading flag changes. */
  function OnRosterSettled(s: PageState, results: Option<seq<Pokemon>>): (t: Transition)
    ensures !t.next.loading
    ensures results.None? ==>
      t.next.pokemonList == s.pokemonList && t.next.selected == s.selected
      && t.next.evolutions == s.evolutions && t.effect == NoEffect
    ensures results.Some? && |results.value| > 0 ==>
      t.next.pokemonList == results.value && t.next.selected == Some(results.value[0])
      && t.next.evolutions == s.evolutions && t.effect == ResolveEvolutions(results.value[0])
    ensures results.Some? && |results.value| == 0 ==>
      t.next.pokemonList == [] && t.next.selected.None? && t.next.evolutions == [] && t.effect == NoEffect
  {
    match results
    case None => Transition(s.(loading := false), NoEffect)
    case Some(list) =>
      if |list| == 0 then Transition(PageState([], None, [], false), NoEffect)
      else Transition(PageState(list, Some(list[0]), s.evolutions, false), ResolveEvolutions(list[0]))
  }

  /** `fetchEvolutions` settling: only the evolution list changes. The
      handler stores what settled whichever entity the lookup was started
      for, so it takes no target. */
  function OnEvolutionsSettled(s: PageState, outcome: Option<Chain>): (t: Transition)
    ensures t.next.pokemonList == s.pokemonList && t.next.selected == s.selected && t.next.loading == s.loading
    ensures |t.next.evolutions| == 0 <==> outcome.None?
    ensures outcome.Some? ==> t.next.evolutions == Flatten(outcome.value)
    ensures t.effect == NoEffect
  {
    Transition(s.(evolutions := EvolutionNames(outcome)), NoEffect)
  }

  /** `handlePokemonClick`: select exactly the clicked entity and start its
      evolution lookup; the list, the current evolutions and the loading flag
      stay as they are until that lookup settles. */
  function OnClick(s: PageState, p: Pokemon): (t: Transition)
    ensures t.next.selected == Some(p)
    ensures t.next.pokemonList == s.pokemonList && t.next.evolutions == s.evolutions && t.next.loading == s.loading
    ensures t.effect == ResolveEvolutions(p)
  {
    Transition(s.(selected := Some(p)), ResolveEvolutions(p))
  }

  function Step(s: PageState, e: Event): Transition
  {
    match e
    case RosterSettled(results) => OnRosterSettled(s, results)
    case EvolutionsSettled(_, outcome) => OnEvolutionsSettled(s, outcome)
    case Clicked(p) => OnClick(s, p)
  }

  /** The page together with the evolution lookups that have been started
      and have not settled yet (one entry per `fetchEvolutions` call still
      in flight). */
  datatype Session = Session(page: PageState, pending: multiset<Pokemon>)

  function InitialSession(): Session
  {
    Session(Initial(), multiset{})
  }

  /** Delivering an event: the page takes its transition, a settled lookup
      leaves the pending ones, and a lookup the transition starts joins them. */
  function Deliver(ss: Session, e: Event): (r: Session)
    ensures r.page == Step(ss.page, e).next
    ensures e.Clicked? ==> r.pending == ss.pending + multiset{e.pokemon}
    ensures e.EvolutionsSettled? ==> r.pending == ss.pending - multiset{e.target}
    ensures e.RosterSettled? && e.results.Some? && |e.results.value| > 0 ==>
      r.pending == ss.pending + multiset{e.results.value[0]}
    ensures e.RosterSettled? && (e.results.None? || |e.results.value| == 0) ==> r.pending == ss.pending
  {
    var t := Step(ss.page, e);
    var pending := if e.EvolutionsSettled? then ss.pending - multiset{e.target} else ss.pending;
    match t.effect
    case NoEffect => Session(t.next, pending)
    case ResolveEvolutions(p) => Session(t.next, pending + multiset{p})
  }

  /** The events the page can actually receive: the roster request is made
      once, on mount, and settles while the loading screen shows; a lookup
      settles only if it was started and has not settled yet (the first one
      starts together with the roster's success, so it settles only after
      loading is over); roster buttons exist only after loading and only for
      listed entities. */
  predicate Enabled(ss: Session, e: Event)
  {
    match e
    case RosterSettled(_) => ss.page.loading
    case EvolutionsSettled(target, _) => target in ss.pending
    case Clicked(p) => !ss.page.loading && p in ss.page.pokemonList
  }

  /** While loading, nothing is listed, selected, shown or looked up;
      afterwards the selection and every pending lookup are for listed
      entities. */
  predicate Inv(ss: Session)
  {
    && (ss.page.loading ==>
          ss.page.pokemonList == [] && ss.page.selected.None? && ss.page.evolutions == []
          && ss.pending == multiset{})
    && (ss.page.selected.Some? ==> ss.page.selected.value in ss.page.pokemonList)
    && (forall p :: p in ss.pending ==> p in ss.page.pokemonList)
  }

  function Run(ss: Session, es: seq<Event>): Session
    decreases |es|
  {
    if |es| == 0 then ss else Run(Deliver(ss, es[0]), es[1..])
  }

  predicate ValidRun(ss: Session, es: seq<Event>)
    decreases |es|
  {
    |es| == 0 || (Enabled(ss, es[0]) && ValidRun(Deliver(ss, es[0]), es[1..]))
  }

  /** Every event the page can receive keeps the invariant. */
  lemma DeliverKeepsInv(ss: Session, e: Event)
    requires Inv(ss) && Enabled(ss, e)
    ensures Inv(Deliver(ss, e))
  {
    var r := Deliver(ss, e);
    forall p | p in r.pending
      ensures p in r.page.pokemonList
    {
      if p in ss.pending {
        assert p in ss.page.pokemonList;
      }
    }
  }

  /** A lookup settles only after loading is over, and only for a listed
      entity. */
  lemma LookupsSettleAfterLoad(ss: Session, e: Event)
    requires Inv(ss) && Enabled(ss, e) && e.EvolutionsSettled?
    ensures !ss.page.loading && e.target in ss.page.pokemonList
  {
  }

  /** Once loading is over, the list never changes again and loading never
      comes back: the roster is loaded once per page. */
  lemma ListStableAfterLoad(ss: Session, e: Event)
    requires !ss.page.loading && Enabled(ss, e)
    ensures Deliver(ss, e).page.pokemonList == ss.page.pokemonList
    ensures !Deliver(ss, e).page.loading
  {
  }

  lemma {:induction false} RunKeepsInv(ss: Session, es: seq<Event>)
    requires Inv(ss) && ValidRun(ss, es)
    ensures Inv(Run(ss, es))
    decreases |es|
  {
    if |es| > 0 {
      DeliverKeepsInv(ss, es[0]);
      RunKeepsInv(Deliver(ss, es[0]), es[1..]);
    }
  }

  /** Every state the page reaches from mount satisfies the invariant. */
  lemma ReachableInv(es: seq<Event>)
    requires ValidRun(InitialSession(), es)
    ensures Inv(Run(InitialSession(), es))
  {
    RunKeepsInv(InitialSession(), es);
  }

  /** A failed roster load leaves nothing listed and nothing selected, and
      the loading screen goes away. */
  lemma FailedLoadShowsNothing(fetchDetail: nat -> Option<Pokemon>)
    requires exists id :: 1 <= id <= RosterSize && fetchDetail(id).None?
    ensures Step(Initial(), RosterSettled(LoadRoster(fetchDetail))).next == PageState([], None, [], false)
  {
  }

  /** After a failed roster load no lookup was started and no button exists,
      so nothing can happen any more: the empty page is final. */
  lemma FailedLoadIsFinal(es: seq<Event>)
    requires ValidRun(Deliver(InitialSession(), RosterSettled(None)), es)
    ensures es == []
    ensures Run(Deliver(InitialSession(), RosterSettled(None)), es).page == PageState([], None, [], false)
  {
  }

  /** A successful roster load lists the 30 entities in request order, selects
      the first and starts its evolution lookup. */
  lemma SuccessfulLoadSelectsFirst(fetchDetail: nat -> Option<Pokemon>)
    requires forall id :: 1 <= id <= RosterSize ==> fetchDetail(id).Some?
    ensures
      var t := Step(Initial(), RosterSettled(LoadRoster(fetchDetail)));
      && |t.next.pokemonList| == RosterSize
      && t.next.selected == Some(fetchDetail(1).value)
      && t.effect == ResolveEvolutions(fetchDetail(1).value)
      && !t.next.loading
  {
  }

  /** Lookups are not tagged with the entity they were started for: when the
      lookup started by clicking `a` settles after `b` was clicked, the page
      shows `a`'s chain while `b` is selected and `b`'s own lookup is still
      pending. */
  lemma StaleLookupWins(
    ss: Session, a: Pokemon, b: Pokemon, chainOfA: Chain,
    fetchSpecies: string -> Option<SpeciesRecord>,
    fetchChain: string -> Option<ChainRecord>)
    requires !ss.page.loading && a in ss.page.pokemonList && b in ss.page.pokemonList && a != b
    requires ResolveChain(a, fetchSpecies, fetchChain) == Some(chainOfA)
    ensures
      var es := [Clicked(a), Clicked(b), EvolutionsSettled(a, ResolveChain(a, fetchSpecies, fetchChain))];
      && ValidRun(ss, es)
      && Run(ss, es).page.selected == Some(b)
      && Run(ss, es).page.evolutions == Flatten(chainOfA)
      && b in Run(ss, es).pending
  {
    var es := [Clicked(a), Clicked(b), EvolutionsSettled(a, Some(chainOfA))];
    var s1 := Deliver(ss, es[0]);
    var s2 := Deliver(s1, es[1]);
    var s3 := Deliver(s2, es[2]);
    assert a in s2.pending;
    assert b in s3.pending;
    assert ValidRun(s3, es[3..]);
    assert ValidRun(s2, es[2..]);
    assert ValidRun(s1, es[1..]);
    assert Run(ss, es) == s3 by {
      assert Run(s3, es[3..]) == s3;
      assert Run(s2, es[2..]) == s3;
      assert Run(s1, es[1..]) == s3;
    }
  }

  // ---------------------------------------------------------------------
  // Rendering
  // ---------------------------------------------------------------------

  /** Ability and stat names: the first hyphen becomes a space, then the
      first letter is capitalised. */
  function DisplayName(name: string): (r: string)
    ensures |r| == |name|
    ensures |name| > 0 && name[0] != '-' ==> r[0] == UpperAscii(name[0])
    ensures forall i :: 1 <= i < |name| && name[i] != '-' ==> r[i] == name[i]
  {
    CapitalizeFirst(ReplaceFirst(name, '-', ' '))
  }

  /** A name shows with its first hyphen as a space and the rest, later
      hyphens included, as it is: `special-attack` shows as "Special attack". */
  lemma DisplayNameSplit(a: string, b: string)
    requires |a| > 0 && '-' !in a
    ensures DisplayName(a + "-" + b) == CapitalizeFirst(a) + " " + b
  {
    ReplaceFirstSplit(a, '-', ' ', b);
    assert (a + " " + b)[1..] == a[1..] + " " + b;
  }

  /** One stage of the evolution panel: `"<n>. <Name>"`, followed by an arrow
      unless it is the last stage. */
  datatype StageRow = StageRow(text: string, arrow: bool)

  datatype EvolutionPanel = NoEvolution | Stages(rows: seq<StageRow>)

  function StageLabel(i: nat, name: string): string
  {
    NatToString(i + 1) + ". " + CapitalizeFirst(name)
  }

  /** The evolution panel: "No evoluciona" for an empty list, otherwise one
      numbered row per name in list order. */
  function RenderEvolutions(evolutions: seq<string>): (p: EvolutionPanel)
    ensures p.NoEvolution? <==> |evolutions| == 0
    ensures p.Stages? ==> |p.rows| == |evolutions|
    ensures p.Stages? ==> forall i :: 0 <= i < |evolutions| ==> p.rows[i].text == StageLabel(i, evolutions[i])
    ensures p.Stages? ==> forall i :: 0 <= i < |evolutions| ==> (p.rows[i].arrow <==> i < |evolutions| - 1)
  {
    if |evolutions| == 0 then NoEvolution
    else Stages(seq(|evolutions|, i requires 0 <= i < |evolutions| =>
      StageRow(StageLabel(i, evolutions[i]), i < |evolutions| - 1)))
  }

  function ArrowCount(rows: seq<StageRow>): nat
  {
    if |rows| == 0 then 0 else (if rows[0].arrow then 1 else 0) + ArrowCount(rows[1..])
  }

  lemma {:induction false} ArrowsBetween(rows: seq<StageRow>)
    requires |rows| > 0
    requires forall i :: 0 <= i < |rows| ==> (rows[i].arrow <==> i < |rows| - 1)
    ensures ArrowCount(rows) == |rows| - 1
  {
    if |rows| > 1 {
      assert forall i :: 0 <= i < |rows[1..]| ==> rows[1..][i] == rows[i + 1];
      ArrowsBetween(rows[1..]);
    }
  }

  /** The panel draws an arrow between consecutive stages only: one fewer
      arrow than stages. */
  lemma ArrowsBetweenStages(evolutions: seq<string>)
    requires |evolutions| > 0
    ensures ArrowCount(RenderEvolutions(evolutions).rows) == |evolutions| - 1
  {
    ArrowsBetween(RenderEvolutions(evolutions).rows);
  }

  /** A resolved single-stage chain shows one stage and no arrow, which is not
      the "No evoluciona" of a failed lookup. */
  lemma SingleStageIsNotNoEvolution(name: string)
    ensures
      var p := RenderEvolutions(EvolutionNames(Some(Chain(name, []))));
      p.Stages? && |p.rows| == 1 && !p.rows[0].arrow
  {
  }

  /** A roster button: capitalised name, `#`-prefixed id label, highlighted
      when its entity has the selected entity's id. */
  datatype RosterButton = RosterButton(name: string, idLabel: string, highlighted: bool)

  function RosterButtons(s: PageState): (bs: seq<RosterButton>)
    ensures |bs| == |s.pokemonList|
    ensures forall i :: 0 <= i < |bs| ==>
      && bs[i].name == CapitalizeFirst(s.pokemonList[i].name)
      && bs[i].idLabel == "#" + IdLabel(s.pokemonList[i].id)
      && (bs[i].highlighted <==> s.selected.Some? && s.selected.value.id == s.pokemonList[i].id)
  {
    seq(|s.pokemonList|, i requires 0 <= i < |s.pokemonList| =>
      var p := s.pokemonList[i];
      RosterButton(CapitalizeFirst(p.name), "#" + IdLabel(p.id),
        s.selected.Some? && s.selected.value.id == p.id))
  }

  predicate DistinctIds(list: seq<Pokemon>)
  {
    forall i, j :: 0 <= i < j < |list| ==> list[i].id != list[j].id
  }

  /** With distinct ids in the list, a click highlights the clicked button and
      no other. */
  lemma ClickHighlightsOnlyClicked(s: PageState, k: nat)
    requires k < |s.pokemonList| && DistinctIds(s.pokemonList)
    ensures
      var bs := RosterButtons(OnClick(s, s.pokemonList[k]).next);
      forall i :: 0 <= i < |bs| ==> (bs[i].highlighted <==> i == k)
  {
  }

  datatype StatRow = StatRow(text: string, value: int)

  /** The detail panel of the selected entity. */
  datatype Detail = Detail(
    title: string,
    idLabel: string,
    normalSprite: string,
    shinySprite: string,
    abilities: seq<string>,
    stats: seq<StatRow>,
    evolutionPanel: EvolutionPanel)

  datatype View = LoadingScreen | Ready(buttons: seq<RosterButton>, detail: Option<Detail>)

  function RenderDetail(p: Pokemon, evolutions: seq<string>): (d: Detail)
    ensures d.title == CapitalizeFirst(p.name) && d.idLabel == "#" + IdLabel(p.id)
    ensures d.normalSprite == p.sprites.frontDefault && d.shinySprite == p.sprites.frontShiny
    ensures |d.abilities| == |p.abilities|
    ensures forall i :: 0 <= i < |p.abilities| ==> d.abilities[i] == DisplayName(p.abilities[i].name)
    ensures |d.stats| == |p.stats|
    ensures forall i :: 0 <= i < |p.stats| ==> d.stats[i] == StatRow(DisplayName(p.stats[i].name), p.stats[i].baseStat)
    ensures d.evolutionPanel == RenderEvolutions(evolutions)
    ensures d.evolutionPanel.NoEvolution? <==> |evolutions| == 0
  {
    Detail(
      CapitalizeFirst(p.name),
      "#" + IdLabel(p.id),
      p.sprites.frontDefault,
      p.sprites.frontShiny,
      seq(|p.abilities|, i requires 0 <= i < |p.abilities| => DisplayName(p.abilities[i].name)),
      seq(|p.stats|, i requires 0 <= i < |p.stats| => StatRow(DisplayName(p.stats[i].name), p.stats[i].baseStat)),
      RenderEvolutions(evolutions))
  }

  /** The page: the loading screen while loading; otherwise the roster
      buttons and, when something is selected, its detail panel. */
  function Render(s: PageState): (v: View)
    ensures v.LoadingScreen? <==> s.loading
    ensures v.Ready? ==> |v.buttons| == |s.pokemonList| && (v.detail.Some? <==> s.selected.Some?)
    ensures v.Ready? ==> v.buttons == RosterButtons(s)
    ensures v.Ready? && s.selected.Some? ==> v.detail == Some(RenderDetail(s.selected.value, s.evolutions))
    ensures v.Ready? && v.detail.Some? ==> (v.detail.value.evolutionPanel.NoEvolution? <==> |s.evolutions| == 0)
  {
    if s.loading then LoadingScreen
    else Ready(RosterButtons(s), match s.selected
      case None => None
      case Some(p) => Some(RenderDetail(p, s.evolutions)))
  }

  /** Once a lookup settles, the page shows "No evoluciona" exactly when that
      lookup failed. */
  lemma NoEvolutionOnlyOnFailure(s: PageState, outcome: Option<Chain>)
    requires !s.loading && s.selected.Some?
    ensures
      var v := Render(OnEvolutionsSettled(s, outcome).next);
      v.Ready? && v.detail.Some? && (v.detail.value.evolutionPanel.NoEvolution? <==> outcome.None?)
  {
  }

  /** The page as shown: the selected entity's evolution panel carries one
      fewer arrow than the stored evolution list has names. */
  lemma ShownArrows(s: PageState)
    requires !s.loading && s.selected.Some? && |s.evolutions| > 0
    ensures Render(s).detail.Some?
    ensures Render(s).detail.value.title == CapitalizeFirst(s.selected.value.name)
    ensures ArrowCount(Render(s).detail.value.evolutionPanel.rows) == |s.evolutions| - 1
  {
    ArrowsBetweenStages(s.evolutions);
  }
}
