/**
 * The contacts view: a list of contact records with add, edit, delete and pin commands,
 * a case-insensitive search, and the pinned-first, then by-name display order.
 */
module Contacts {

  import opened Wrappers
  import opened Seqs
  import opened Text

  datatype ContactStatus = Hot | Warm | Cold

  datatype Contact = Contact(
    id: int,
    name: string,
    email: string,
    phone: string,
    company: string,
    position: string,
    location: string,
    status: ContactStatus,
    lastContact: string,
    avatar: string,
    isPinned: bool)

  /** The fields the add and edit dialogs fill in (`formData`). */
  datatype ContactForm = ContactForm(
    name: string,
    email: string,
    phone: string,
    company: string,
    position: string,
    location: string,
    status: ContactStatus)

  /** The dialog fields a contact carries. */
  function FormOf(c: Contact): ContactForm
  {
    ContactForm(c.name, c.email, c.phone, c.company, c.position, c.location, c.status)
  }

  /** Add and edit go ahead only when both a name and an email were entered. */
  predicate ValidForm(form: ContactForm)
  {
    form.name != "" && form.email != ""
  }

  function DistinctIds(): (Contact, Contact) -> bool
  {
    (a: Contact, b: Contact) => a.id != b.id
  }

  /** No two contacts share an id. */
  predicate UniqueIds(cs: seq<Contact>)
  {
    Pairwise(DistinctIds(), cs)
  }

  // ---------------------------------------------------------------------------
  // Search and order

  /** The search box test: the query occurs, ignoring case, in the name, company or email. */
  predicate Matches(c: Contact, query: string)
  {
    ContainsIgnoreCase(c.name, query) ||
    ContainsIgnoreCase(c.company, query) ||
    ContainsIgnoreCase(c.email, query)
  }

  function MatchesQuery(query: string): Contact -> bool
  {
    (c: Contact) => Matches(c, query)
  }

  /** `filteredContacts`: the contacts the query matches, in their order. */
  function FilteredContacts(cs: seq<Contact>, query: string): (r: seq<Contact>)
    ensures forall i :: 0 <= i < |r| ==> r[i] in cs && Matches(r[i], query)
    ensures forall i :: 0 <= i < |cs| && Matches(cs[i], query) ==> cs[i] in r
    ensures forall c :: multiset(r)[c] == if Matches(c, query) then multiset(cs)[c] else 0
    ensures IsSubsequence(r, cs)
  {
    FilterMembers(MatchesQuery(query), cs);
    FilterMultiplicity(MatchesQuery(query), cs);
    Filter(MatchesQuery(query), cs)
  }

  /** The empty query keeps every contact. */
  lemma EmptyQueryKeepsAll(cs: seq<Contact>)
    ensures FilteredContacts(cs, "") == cs
  {
    forall i | 0 <= i < |cs| ensures MatchesQuery("")(cs[i]) {
      EmptyQueryMatches(cs[i].name);
    }
    FilterKeepsAll(MatchesQuery(""), cs);
  }

  /** Searching for the upper-cased query finds the same contacts. */
  lemma SearchIgnoresQueryCase(cs: seq<Contact>, query: string)
    ensures FilteredContacts(cs, Upper(query)) == FilteredContacts(cs, query)
  {
    forall i | 0 <= i < |cs| ensures MatchesQuery(Upper(query))(cs[i]) == MatchesQuery(query)(cs[i]) {
      QueryCaseIgnored(cs[i].name, query);
      QueryCaseIgnored(cs[i].company, query);
      QueryCaseIgnored(cs[i].email, query);
    }
    FilterSame(MatchesQuery(Upper(query)), MatchesQuery(query), cs);
  }

  /**
   * `a.localeCompare(b)` for an ordering `nameLe` of names: 0 when the two names compare
   * equal, negative when `a` comes first, positive otherwise.
   */
  function LocaleCompare(nameLe: (string, string) -> bool, a: string, b: string): int
  {
    if nameLe(a, b) && nameLe(b, a) then 0 else if nameLe(a, b) then -1 else 1
  }

  /** The comparator of `sortedContacts`: pinned contacts first, then by name. */
  function CompareContacts(nameLe: (string, string) -> bool, a: Contact, b: Contact): int
  {
    if a.isPinned && !b.isPinned then -1
    else if !a.isPinned && b.isPinned then 1
    else LocaleCompare(nameLe, a.name, b.name)
  }

  /** "`a` may come before `b`": the comparator gives at most 0. */
  function ContactOrder(nameLe: (string, string) -> bool): (Contact, Contact) -> bool
  {
    (a: Contact, b: Contact) => CompareContacts(nameLe, a, b) <= 0
  }

  /** `sortedContacts`: the filtered contacts in display order. */
  function SortedContacts(nameLe: (string, string) -> bool, filtered: seq<Contact>): seq<Contact>
  {
    SortBy(ContactOrder(nameLe), filtered)
  }

  /** When names are totally preordered, so are contacts under the comparator. */
  lemma ContactOrderIsTotalPreorder(nameLe: (string, string) -> bool)
    requires TotalPreorder(nameLe)
    ensures TotalPreorder(ContactOrder(nameLe))
  {
    var le := ContactOrder(nameLe);
    forall a: Contact, b: Contact, c: Contact | le(a, b) && le(b, c) ensures le(a, c) {
      if a.isPinned == b.isPinned && b.isPinned == c.isPinned {
        assert nameLe(a.name, b.name) && nameLe(b.name, c.name);
      }
    }
  }

  /**
   * The display order is a permutation of the filtered contacts with every pinned contact
   * before every unpinned one and ascending names within each group.
   */
  lemma SortedContactsOrder(nameLe: (string, string) -> bool, filtered: seq<Contact>)
    requires TotalPreorder(nameLe)
    ensures var r := SortedContacts(nameLe, filtered);
      && multiset(r) == multiset(filtered)
      && (forall i, j :: 0 <= i < j < |r| && r[j].isPinned ==> r[i].isPinned)
      && (forall i, j :: 0 <= i < j < |r| && r[i].isPinned == r[j].isPinned ==>
            nameLe(r[i].name, r[j].name))
  {
    ContactOrderIsTotalPreorder(nameLe);
    SortBySorted(ContactOrder(nameLe), filtered);
    var r := SortedContacts(nameLe, filtered);
    forall i, j | 0 <= i < j < |r|
      ensures r[j].isPinned ==> r[i].isPinned
      ensures r[i].isPinned == r[j].isPinned ==> nameLe(r[i].name, r[j].name)
    {
      assert ContactOrder(nameLe)(r[i], r[j]);
    }
  }

  /** Contacts that compare equal (same pin state, equally ranked names) keep their input order. */
  lemma SortedContactsStable(nameLe: (string, string) -> bool, filtered: seq<Contact>, x: Contact)
    requires TotalPreorder(nameLe)
    ensures Filter(EquivalentTo(ContactOrder(nameLe), x), SortedContacts(nameLe, filtered)) ==
            Filter(EquivalentTo(ContactOrder(nameLe), x), filtered)
  {
    ContactOrderIsTotalPreorder(nameLe);
    SortByStable(ContactOrder(nameLe), x, filtered);
  }

  // ---------------------------------------------------------------------------
  // Avatar initials

  predicate NonEmpty(w: string)
  {
    |w| > 0
  }

  /** `words.map(n => n[0]).join('')`: `n[0]` of an empty word is `undefined`, which `join` drops. */
  function Initials(words: seq<string>): (r: string)
    ensures |r| == |Filter(NonEmpty, words)|
    ensures forall i :: 0 <= i < |r| ==> r[i] == Filter(NonEmpty, words)[i][0]
    decreases |words|
  {
    if |words| == 0 then ""
    else
      assert words == [words[0]] + words[1..];
      FilterCons(NonEmpty, words[0], words[1..]);
      (if |words[0]| > 0 then [words[0][0]] else "") + Initials(words[1..])
  }

  /**
   * `generateAvatar`: the upper-cased first letters of the space-separated words of the
   * name; empty words contribute nothing, so there are at most as many letters as words.
   */
  function GenerateAvatar(name: string): (r: string)
    ensures var words := Filter(NonEmpty, Split(name, ' '));
      && |r| == |words| <= |Split(name, ' ')|
      && forall i :: 0 <= i < |r| ==> r[i] == UpperChar(words[i][0])
  {
    Upper(Initials(Split(name, ' ')))
  }

  // ---------------------------------------------------------------------------
  // The list updates

  /** `Math.max(...contacts.map(c => c.id))` for a non-empty list. */
  function MaxId(cs: seq<Contact>): (m: int)
    requires |cs| > 0
    ensures forall i :: 0 <= i < |cs| ==> cs[i].id <= m
    ensures exists i :: 0 <= i < |cs| && cs[i].id == m
    decreases |cs|
  {
    if |cs| == 1 then cs[0].id
    else
      var rest := MaxId(cs[1..]);
      assert forall i :: 1 <= i < |cs| ==> cs[i] == cs[1..][i - 1];
      if cs[0].id >= rest then cs[0].id else rest
  }

  /** The id a new contact gets: one more than the largest id, or 1 in an empty list. */
  function NextId(cs: seq<Contact>): (r: int)
    ensures forall i :: 0 <= i < |cs| ==> cs[i].id < r
    ensures |cs| > 0 ==> exists i :: 0 <= i < |cs| && cs[i].id == r - 1
    ensures |cs| == 0 ==> r == 1
  {
    if |cs| == 0 then 1 else MaxId(cs) + 1
  }

  /** The contact `handleAddContact` builds from the form, dated `today` (`YYYY-MM-DD`). */
  function NewContact(cs: seq<Contact>, form: ContactForm, today: string): (c: Contact)
    ensures FormOf(c) == form
    ensures c.avatar == GenerateAvatar(form.name)
    ensures c.lastContact == today && !c.isPinned
    ensures forall i :: 0 <= i < |cs| ==> cs[i].id < c.id
    ensures |cs| > 0 ==> exists i :: 0 <= i < |cs| && cs[i].id == c.id - 1
  {
    Contact(NextId(cs), form.name, form.email, form.phone, form.company, form.position,
            form.location, form.status, today, GenerateAvatar(form.name), false)
  }

  /** An edited contact: the form's fields and a new avatar, the rest kept. */
  function EditedContact(c: Contact, form: ContactForm): (r: Contact)
    ensures FormOf(r) == form && r.avatar == GenerateAvatar(form.name)
    ensures r.id == c.id && r.isPinned == c.isPinned && r.lastContact == c.lastContact
  {
    c.(name := form.name, email := form.email, phone := form.phone, company := form.company,
       position := form.position, location := form.location, status := form.status,
       avatar := GenerateAvatar(form.name))
  }

  /** The list `handleEditContact` sets: the contacts with the given id edited, the rest as they were. */
  function WithEdit(cs: seq<Contact>, id: int, form: ContactForm): (r: seq<Contact>)
    ensures |r| == |cs|
    ensures forall i :: 0 <= i < |cs| ==>
              r[i].id == cs[i].id && r[i].isPinned == cs[i].isPinned &&
              r[i].lastContact == cs[i].lastContact
    ensures forall i :: 0 <= i < |cs| && cs[i].id == id ==>
              FormOf(r[i]) == form && r[i].avatar == GenerateAvatar(form.name)
    ensures forall i :: 0 <= i < |cs| && cs[i].id != id ==> r[i] == cs[i]
  {
    seq(|cs|, i requires 0 <= i < |cs| => if cs[i].id == id then EditedContact(cs[i], form) else cs[i])
  }

  function HasOtherId(id: int): Contact -> bool
  {
    (c: Contact) => c.id != id
  }

  /** The list `handleDeleteContact` sets: the contacts without the given id, in order. */
  function Without(cs: seq<Contact>, id: int): (r: seq<Contact>)
    ensures forall i :: 0 <= i < |r| ==> r[i].id != id
    ensures forall i :: 0 <= i < |cs| && cs[i].id != id ==> cs[i] in r
    ensures forall i :: 0 <= i < |r| ==> r[i] in cs
    ensures forall c :: multiset(r)[c] == if c.id != id then multiset(cs)[c] else 0
    ensures IsSubsequence(r, cs)
  {
    FilterMembers(HasOtherId(id), cs);
    FilterMultiplicity(HasOtherId(id), cs);
    Filter(HasOtherId(id), cs)
  }

  /** The list `togglePinContact` sets: the contacts with the given id have their pin flipped. */
  function WithToggle(cs: seq<Contact>, id: int): (r: seq<Contact>)
    ensures |r| == |cs|
    ensures forall i :: 0 <= i < |cs| ==>
              r[i].(isPinned := cs[i].isPinned) == cs[i] &&
              (r[i].isPinned != cs[i].isPinned <==> cs[i].id == id)
  {
    seq(|cs|, i requires 0 <= i < |cs| =>
      if cs[i].id == id then cs[i].(isPinned := !cs[i].isPinned) else cs[i])
  }

  // ---------------------------------------------------------------------------
  // Properties of the updates

  /** Adding a contact keeps the ids unique: the new id is fresh. */
  lemma AddKeepsIdsUnique(cs: seq<Contact>, form: ContactForm, today: string)
    requires UniqueIds(cs)
    ensures UniqueIds(cs + [NewContact(cs, form, today)])
  {
  }

  /** Editing leaves every id where it was. */
  lemma EditKeepsIdsUnique(cs: seq<Contact>, id: int, form: ContactForm)
    requires UniqueIds(cs)
    ensures UniqueIds(WithEdit(cs, id, form))
  {
  }

  /** Toggling leaves every id where it was. */
  lemma ToggleKeepsIdsUnique(cs: seq<Contact>, id: int)
    requires UniqueIds(cs)
    ensures UniqueIds(WithToggle(cs, id))
  {
    var t := WithToggle(cs, id);
    forall i | 0 <= i < |cs| ensures t[i].id == cs[i].id {
      assert t[i].(isPinned := cs[i].isPinned).id == t[i].id;
    }
  }

  /** Deleting keeps a subsequence, whose ids are still unique. */
  lemma DeleteKeepsIdsUnique(cs: seq<Contact>, id: int)
    requires UniqueIds(cs)
    ensures UniqueIds(Without(cs, id))
  {
    FilterPairwise(DistinctIds(), HasOtherId(id), cs);
  }

  /** Deleting the contact just added gives back the list as it was before the add. */
  lemma DeleteUndoesAdd(cs: seq<Contact>, form: ContactForm, today: string)
    ensures var c := NewContact(cs, form, today); Without(cs + [c], c.id) == cs
  {
    var c := NewContact(cs, form, today);
    var s := cs + [c];
    FilterDropsOne(HasOtherId(c.id), s, |cs|);
    assert s[..|cs|] == cs && s[|cs| + 1..] == [];
  }

  /** Deleting an id no contact has changes nothing. */
  lemma DeleteAbsentId(cs: seq<Contact>, id: int)
    requires forall i :: 0 <= i < |cs| ==> cs[i].id != id
    ensures Without(cs, id) == cs
  {
    FilterKeepsAll(HasOtherId(id), cs);
  }

  /** With unique ids, deleting a present id removes exactly that one contact. */
  lemma DeleteRemovesOne(cs: seq<Contact>, k: int)
    requires UniqueIds(cs) && 0 <= k < |cs|
    ensures Without(cs, cs[k].id) == cs[..k] + cs[k + 1..]
  {
    FilterDropsOne(HasOtherId(cs[k].id), cs, k);
  }

  /** Deleting twice is deleting once. */
  lemma DeleteIdempotent(cs: seq<Contact>, id: int)
    ensures Without(Without(cs, id), id) == Without(cs, id)
  {
    FilterIdempotent(HasOtherId(id), cs);
  }

  /** Toggling a pin twice restores the list. */
  lemma ToggleTwice(cs: seq<Contact>, id: int)
    ensures WithToggle(WithToggle(cs, id), id) == cs
  {
    var t := WithToggle(cs, id);
    var u := WithToggle(t, id);
    forall i | 0 <= i < |cs| ensures u[i] == cs[i] {
      assert t[i].(isPinned := cs[i].isPinned) == cs[i];
      assert u[i].(isPinned := t[i].isPinned) == t[i];
    }
  }

  /** Submitting the same edit twice is submitting it once. */
  lemma EditIdempotent(cs: seq<Contact>, id: int, form: ContactForm)
    ensures WithEdit(WithEdit(cs, id, form), id, form) == WithEdit(cs, id, form)
  {
  }

  // ---------------------------------------------------------------------------
  // The store

  /** The four sample contacts the view starts with. */
  const SampleContacts: seq<Contact> := [
    Contact(1, "Sarah Johnson", "sarah.johnson@techcorp.com", "+1 (555) 123-4567",
            "TechCorp Solutions", "CTO", "San Francisco, CA", Hot, "2024-01-15", "SJ", true),
    Contact(2, "Michael Chen", "michael.chen@innovate.io", "+1 (555) 234-5678",
            "Innovate.io", "VP of Engineering", "Austin, TX", Warm, "2024-01-12", "MC", false),
    Contact(3, "Emily Rodriguez", "emily.r@digitalfuture.com", "+1 (555) 345-6789",
            "Digital Future Inc", "Product Manager", "New York, NY", Cold, "2024-01-08", "ER", false),
    Contact(4, "David Kim", "david.kim@startupx.com", "+1 (555) 456-7890",
            "StartupX", "Founder & CEO", "Seattle, WA", Hot, "2024-01-14", "DK", false)
  ]

  /** The samples carry the ids 1 to 4, so no two share an id, and only the first is pinned. */
  lemma SampleContactsShape()
    ensures |SampleContacts| == 4
    ensures forall i :: 0 <= i < 4 ==> SampleContacts[i].id == i + 1
    ensures UniqueIds(SampleContacts)
    ensures forall i :: 0 <= i < 4 ==> (SampleContacts[i].isPinned <==> i == 0)
  {
  }

  /** The `contacts` state of the view, updated by the four handlers. */
  class ContactStore {
    var contacts: seq<Contact>

    ghost predicate Valid()
      reads this
    {
      UniqueIds(contacts)
    }

    /** The view starts with the four sample contacts. */
    constructor ()
      ensures Valid() && contacts == SampleContacts
    {
      SampleContactsShape();
      contacts := SampleContacts;
    }

    /** `handleAddContact`: ignored without a name or an email, else one new contact at the end. */
    method Add(form: ContactForm, today: string)
      requires Valid()
      modifies this
      ensures Valid()
      ensures !ValidForm(form) ==> contacts == old(contacts)
      ensures ValidForm(form) ==> contacts == old(contacts) + [NewContact(old(contacts), form, today)]
    {
      if !ValidForm(form) {
        return;
      }
      AddKeepsIdsUnique(contacts, form, today);
      var newContact := NewContact(contacts, form, today);
      contacts := contacts + [newContact];
    }

    /** `handleEditContact`: ignored without a selection, a name or an email. */
    method Edit(selected: Option<Contact>, form: ContactForm)
      requires Valid()
      modifies this
      ensures Valid()
      ensures selected.None? || !ValidForm(form) ==> contacts == old(contacts)
      ensures selected.Some? && ValidForm(form) ==> contacts == WithEdit(old(contacts), selected.value.id, form)
    {
      if selected.None? || !ValidForm(form) {
        return;
      }
      EditKeepsIdsUnique(contacts, selected.value.id, form);
      contacts := WithEdit(contacts, selected.value.id, form);
    }

    /** `handleDeleteContact`: ignored without a selection. */
    method Delete(selected: Option<Contact>)
      requires Valid()
      modifies this
      ensures Valid()
      ensures selected.None? ==> contacts == old(contacts)
      ensures selected.Some? ==> contacts == Without(old(contacts), selected.value.id)
    {
      if selected.None? {
        return;
      }
      DeleteKeepsIdsUnique(contacts, selected.value.id);
      contacts := Without(contacts, selected.value.id);
    }

    /** `togglePinContact`. */
    method TogglePin(contactId: int)
      requires Valid()
      modifies this
      ensures Valid()
      ensures contacts == WithToggle(old(contacts), contactId)
    {
      ToggleKeepsIdsUnique(contacts, contactId);
      contacts := WithToggle(contacts, contactId);
    }
  }
}
