/**
 * The view model that `displayCards` and `filterAndDisplayData` write into
 * the page: one card per record, the empty/populated display state, the
 * disabled flags of the navigation buttons and the header label.
 */
module View {
  import opened Text
  import opened Filtering
  import opened Pagination

  const NamePlaceholder: string := "TBA Faculty"
  const FieldPlaceholder: string := "N/A"
  const DefaultHeader: string := "[Faculty Name]"

  /** The five lines of a card, in the order the card shows them. */
  datatype Card = Card(name: string, designation: string, room: string, department: string, email: string)

  /**
   * `item[key] || placeholder`: the record's value when it has a non-empty
   * one (the empty string is falsy), the placeholder otherwise.
   */
  function Field(item: Record, key: string, placeholder: string): (r: string)
    ensures Truthy(item, key) ==> r == item[key]
    ensures !Truthy(item, key) ==> r == placeholder
  {
    if Truthy(item, key) then item[key] else placeholder
  }

  /** The card of one record. */
  function CardOf(item: Record): (c: Card)
    ensures c.name != [] && c.designation != [] && c.room != [] && c.department != [] && c.email != []
  {
    Card(Field(item, NameField, NamePlaceholder),
         Field(item, "Designation", FieldPlaceholder),
         Field(item, "Room No", FieldPlaceholder),
         Field(item, "Department", FieldPlaceholder),
         Field(item, "Email", FieldPlaceholder))
  }

  /** The cards of a page, in page order. */
  function Cards(page: seq<Record>): (cs: seq<Card>)
    ensures |cs| == |page|
    ensures forall i :: 0 <= i < |page| ==> cs[i] == CardOf(page[i])
  {
    if page == [] then [] else [CardOf(page[0])] + Cards(page[1..])
  }

  /**
   * What the page shows after a render. `NoResults`: the no-results message
   * is displayed, the card grid and the pagination controls are hidden.
   * `Populated`: the message is hidden, the grid and the controls are
   * displayed, and the buttons carry the given disabled flags.
   */
  datatype Display =
    | NoResults
    | Populated(cards: seq<Card>, prevDisabled: bool, nextDisabled: bool)

  /**
   * `displayCards(data)` at page `p`. The empty state is chosen exactly when
   * the page slice is empty; otherwise there is one card per record of the
   * slice, and each button is disabled exactly when its click handler's
   * guard would refuse to move.
   */
  function Render(data: seq<Record>, p: int): (d: Display)
    requires p >= 1
    ensures d.NoResults? <==> PageStart(p) >= |data|
    ensures d.Populated? ==>
      |d.cards| == |Page(data, p)| &&
      (forall i :: 0 <= i < |d.cards| ==> d.cards[i] == CardOf(data[PageStart(p) + i])) &&
      d.prevDisabled == !HasPrev(p) &&
      d.nextDisabled == !HasNext(p, |data|)
  {
    var page := Page(data, p);
    if |page| == 0 then NoResults
    else Populated(Cards(page), p == 1, PageStart(p) + PageSize >= |data|)
  }

  /**
   * The header label: the raw selector text in brackets when the selector is
   * set, "[Faculty Name]" when it is empty or only whitespace.
   */
  function Header(facultyRaw: string): string
  {
    if Normalize(facultyRaw) != [] then "[" + facultyRaw + "]" else DefaultHeader
  }

  /**
   * The header shows the selector text as typed (not trimmed, not
   * lower-cased) unless it is only whitespace, when it shows the default.
   */
  lemma HeaderShowsSelector(facultyRaw: string)
    ensures Header(facultyRaw) == "[" + (if AllSpace(facultyRaw) then "Faculty Name" else facultyRaw) + "]"
  {
    NormalizeEmptyIff(facultyRaw);
  }

  /** A record with all five fields filled in shows them unchanged, each on its own line. */
  lemma CardOfCompleteRecord(item: Record)
    requires forall key :: key in {NameField, "Designation", "Room No", "Department", "Email"} ==> key in item && item[key] != []
    ensures CardOf(item) == Card(item[NameField], item["Designation"], item["Room No"], item["Department"], item["Email"])
  {
  }

  /** A record with none of the five fields shows only placeholders. */
  lemma CardOfBareRecord(item: Record)
    requires forall key :: key in {NameField, "Designation", "Room No", "Department", "Email"} ==> key !in item
    ensures CardOf(item) == Card(NamePlaceholder, FieldPlaceholder, FieldPlaceholder, FieldPlaceholder, FieldPlaceholder)
  {
  }

  /** On a populated page both buttons are disabled exactly when it is the only page. */
  lemma BothDisabledIffSinglePage(data: seq<Record>, p: int)
    requires Reachable(p, |data|)
    requires Render(data, p).Populated?
    ensures Render(data, p).prevDisabled && Render(data, p).nextDisabled <==> p == 1 && |data| <= PageSize
  {
  }
}
