/** The gift-pack page: three closed packs, one of which is picked and then
    revealed. The choice is kept in local storage so that a reload shows the
    same pack again. */
module GiftPack {
  import opened Wrappers
  import opened Storage

  datatype Pack = A | B | C

  /** The page's `picked` state, nothing until a pack is chosen, and local
      storage. */
  datatype Gift = Gift(picked: Option<Pack>, store: Store)

  const StorageKey: string := "anna_specializzazione_gift_pack"

  /** The text a pack is stored as. */
  function Name(p: Pack): string {
    match p
    case A => "A"
    case B => "B"
    case C => "C"
  }

  /** The check of the load effect: only the exact strings "A", "B" and "C"
      name a pack; anything else, and no value at all, names none. */
  function ParsePack(v: Option<string>): (r: Option<Pack>)
    ensures r.Some? <==> v.Some? && (v.value == "A" || v.value == "B" || v.value == "C")
    ensures r.Some? ==> Name(r.value) == v.value
  {
    if v == Some("A") then Some(A)
    else if v == Some("B") then Some(B)
    else if v == Some("C") then Some(C)
    else None
  }

  /** Every pack reads back from its stored name, and only from it. */
  lemma NameRoundTrip(p: Pack, s: string)
    ensures ParsePack(Some(Name(p))) == Some(p)
    ensures ParsePack(Some(s)) == Some(p) <==> s == Name(p)
  {
  }

  /** Mounting the page: nothing is picked at first, then the load effect
      restores a valid stored pack. Storage is only read. */
  function Load(store: Store): (r: Gift)
    ensures r.store == store
    ensures r.picked.Some? <==> StorageKey in store
                                && (store[StorageKey] == "A" || store[StorageKey] == "B" || store[StorageKey] == "C")
    ensures r.picked.Some? ==> store[StorageKey] == Name(r.picked.value)
  {
    var mounted := Gift(None, store);
    var saved := ParsePack(Get(store, StorageKey));
    if saved.Some? then mounted.(picked := saved) else mounted
  }

  /** `onPick(p)`: the pack becomes the choice and is stored under its name
      (the confetti that follows is decoration). */
  function Pick(g: Gift, p: Pack): (r: Gift)
    ensures r.picked == Some(p)
    ensures StorageKey in r.store && r.store[StorageKey] == Name(p)
    ensures r.store.Keys == g.store.Keys + {StorageKey}
    ensures forall k :: k in g.store && k != StorageKey ==> k in r.store && r.store[k] == g.store[k]
  {
    Gift(Some(p), g.store[StorageKey := Name(p)])
  }

  /** A tap on a pack card. The cards exist only while nothing is picked, so
      a tap picks from the unchosen state and can never replace a choice. */
  function Tap(g: Gift, p: Pack): (r: Gift)
    ensures g.picked.None? ==> r.picked == Some(p)
    ensures g.picked.Some? ==> r == g
  {
    if g.picked.None? then Pick(g, p) else g
  }

  /** The reset button: the stored pack is removed and nothing is picked. */
  function Reset(g: Gift): (r: Gift)
    ensures r.picked.None?
    ensures StorageKey !in r.store
    ensures r.store.Keys == g.store.Keys - {StorageKey}
    ensures forall k :: k in g.store && k != StorageKey ==> k in r.store && r.store[k] == g.store[k]
  {
    Gift(None, g.store - {StorageKey})
  }

  /** Storage agrees with the page: reloading would show the same choice. */
  predicate Consistent(g: Gift) {
    ParsePack(Get(g.store, StorageKey)) == g.picked
  }

  /** A picked pack survives a reload. */
  lemma PickThenLoad(g: Gift, p: Pack)
    ensures Load(Pick(g, p).store).picked == Some(p)
  {
  }

  /** After a reset a reload shows the packs closed again. */
  lemma ResetThenLoad(g: Gift)
    ensures Load(Reset(g).store).picked.None?
  {
  }

  /** Loading, tapping and resetting all keep storage in agreement with the
      page, so at every moment a reload resumes the same page. */
  lemma ReloadResumes(g: Gift, p: Pack)
    ensures Consistent(Load(g.store))
    ensures Load(Load(g.store).store) == Load(g.store)
    ensures Consistent(g) ==> Consistent(Tap(g, p)) && Consistent(Reset(g))
    ensures Consistent(g) ==> Load(g.store) == g
  {
  }

  /** Once a pack is picked, no sequence of taps changes it. */
  lemma {:induction false} ChoiceIsFinal(g: Gift, taps: seq<Pack>)
    requires g.picked.Some?
    ensures Taps(g, taps) == g
    decreases |taps|
  {
    if taps != [] {
      ChoiceIsFinal(Tap(g, taps[0]), taps[1..]);
    }
  }

  /** The first tap decides: every later tap is ignored. */
  lemma FirstTapWins(g: Gift, taps: seq<Pack>)
    requires g.picked.None? && taps != []
    ensures Taps(g, taps).picked == Some(taps[0])
  {
    ChoiceIsFinal(Tap(g, taps[0]), taps[1..]);
  }

  function Taps(g: Gift, taps: seq<Pack>): Gift
    decreases |taps|
  {
    if taps == [] then g else Taps(Tap(g, taps[0]), taps[1..])
  }

  /** The reveal text of a pack: a title and a line. */
  datatype Copy = Copy(title: string, line: string)

  /** `packCopy`: the text shown once a pack is picked, nothing before. */
  function PackCopy(picked: Option<Pack>): (r: Option<Copy>)
    ensures r.None? <==> picked.None?
  {
    match picked
    case None => None
    case Some(p) => Some(Copy(Title(p), Line(p)))
  }

  function Title(p: Pack): string {
    match p
    case A => "Pacco A — Modalità: neve ⛷️"
    case B => "Pacco B — Modalità: vetta 🏔️"
    case C => "Pacco C — Modalità: missione compiuta 🩺"
  }

  function Line(p: Pack): string {
    match p
    case A => "Congratulazioni per la specializzazione: Dottoressa Ginecologa 💙"
    case B => "Ufficialmente ginecologa. Adesso sì che possiamo dirlo 😄"
    case C => "Specializzazione sbloccata. Livello: leggenda."
  }

  /** The three packs are revealed under three different titles. */
  lemma TitlesDistinct(p: Pack, q: Pack)
    requires p != q
    ensures PackCopy(Some(p)).value.title != PackCopy(Some(q)).value.title
    ensures PackCopy(Some(p)).value.title != ""
  {
    TitleNamesPack(p);
    TitleNamesPack(q);
  }

  /** Each title names its pack: the seventh character is the pack's letter. */
  lemma TitleNamesPack(p: Pack)
    ensures |Title(p)| > 6 && Title(p)[6] == Name(p)[0]
  {
  }
}
