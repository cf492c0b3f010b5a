/**
 * The four visits the screen loads when it mounts
 * (frontend/src/pages/Visitas.jsx:29-90) and the scenario they support.
 */
module Fixture {
  import opened Sequences
  import opened Strings
  import opened VisitModel
  import opened Projector
  import opened RecordStore

  // Each address is one literal in the source; it is written here as the
  // pieces the exclusion lemmas below split it into for `LowerAppend`.

  function Maria(): Visit
  {
    Visit(1, Form("Maria Silva", "(11) 99999-1234", "maria@email.com",
      "Rua das Flores, 123" + " - Vila Madalena" + ", São Paulo", "2024-06-25", "14:00",
      Kenneth, Agendada, "Cliente prefere horário da tarde. Apartamento no 5º andar.", Residencial),
      "event_123")
  }

  function Joao(): Visit
  {
    Visit(2, Form("João Santos", "(11) 88888-5678", "joao@empresa.com",
      "Av. Paulista" + ", 1000 - Bela Vista" + ", São Paulo", "2024-06-24", "10:00",
      Kenneth, Realizada, "Mudança comercial. Muitos equipamentos eletrônicos.", Comercial),
      "event_124")
  }

  function Ana(): Visit
  {
    Visit(3, Form("Ana Costa", "(11) 77777-9012", "ana@email.com",
      "Rua Augusta, 500" + " - Consolação" + ", São Paulo", "2024-06-23", "16:00",
      Douglas, Cancelada, "Cliente cancelou por motivos pessoais.", Residencial),
      "event_125")
  }

  function Carlos(): Visit
  {
    Visit(4, Form("Carlos Lima", "(11) 66666-3456", "carlos@email.com",
      "Rua Oscar Freire, 200" + " - Jardins" + ", São Paulo", "2024-06-26", "09:00",
      Kenneth, Agendada, "Casa grande, mudança completa.", Residencial),
      "event_126")
  }

  /** `visitasMock`. */
  function Seed(): seq<Visit>
  {
    [Maria(), Joao(), Ana(), Carlos()]
  }

  /** The seed's ids are 1 to 4, in order, hence unique. */
  lemma SeedIds()
    ensures Ids(Seed()) == [1, 2, 3, 4]
    ensures UniqueIds(Seed())
  {
  }

  /** Filtering four elements of which only the second passes. */
  lemma KeepSecondOfFour<T(!new)>(a: T, b: T, c: T, d: T, p: T -> bool)
    requires !p(a) && p(b) && !p(c) && !p(d)
    ensures Keep([a, b, c, d], p) == [b]
  {
    KeepExactlyOne([a, b, c, d], 1, p);
  }

  /** Filtering four elements of which only the third passes. */
  lemma KeepThirdOfFour<T(!new)>(a: T, b: T, c: T, d: T, p: T -> bool)
    requires !p(a) && !p(b) && p(c) && !p(d)
    ensures Keep([a, b, c, d], p) == [c]
  {
    KeepExactlyOne([a, b, c, d], 2, p);
  }

  /** Filtering five elements of which only the third fails. */
  lemma KeepDropsThirdOfFive<T(!new)>(a: T, b: T, c: T, d: T, e: T, p: T -> bool)
    requires p(a) && p(b) && !p(c) && p(d) && p(e)
    ensures Keep([a, b, c, d, e], p) == [a, b, d, e]
  {
    var s := [a, b, c, d, e];
    assert s[..2] == [a, b] && s[3..] == [d, e];
    KeepDropsOne(s, 2, p);
  }

  /** Filtering the seed with "cancelada" and no search shows only visit 3. */
  lemma ScenarioCancelled()
    ensures Filtered(Seed(), Only(Cancelada), "") == [Ana()]
  {
    ShowStatus(Seed(), Cancelada);
    KeepThirdOfFour(Maria(), Joao(), Ana(), Carlos(), (v: Visit) => v.form.status == Cancelada);
  }

  /** "Paulista" is in visit 2's address. */
  lemma PaulistaInJoao()
    ensures SearchMatches(Joao(), "Paulista")
  {
    var a, b := "Av. Paulista", ", 1000 - Bela Vista" + ", São Paulo";
    assert Joao().form.endereco == a + b;
    LowerAppend(a, b);
    assert Lower("Paulista") == "paulista";
    assert Lower(a) == "av. paulista";
    assert (Lower(a) + Lower(b))[4..12] == Lower(a)[4..12];
    assert OccursAt(Lower("Paulista"), Lower(a + b), 4);
  }

  /** Visit 1's client name and address hold no 't' in either case. */
  lemma MariaLacksT()
    ensures 't' !in Maria().form.cliente && 'T' !in Maria().form.cliente
    ensures 't' !in Maria().form.endereco && 'T' !in Maria().form.endereco
  {
    var a, b, c := "Rua das Flores, 123", " - Vila Madalena", ", São Paulo";
    assert 't' !in a && 'T' !in a;
    assert 't' !in b && 'T' !in b;
    assert 't' !in c && 'T' !in c;
    assert Maria().form.endereco == a + b + c;
  }

  /** Visit 3's client name and address hold no 'i' in either case. */
  lemma AnaLacksI()
    ensures 'i' !in Ana().form.cliente && 'I' !in Ana().form.cliente
    ensures 'i' !in Ana().form.endereco && 'I' !in Ana().form.endereco
  {
    var a, b, c := "Rua Augusta, 500", " - Consolação", ", São Paulo";
    assert 'i' !in a && 'I' !in a;
    assert 'i' !in b && 'I' !in b;
    assert 'i' !in c && 'I' !in c;
    assert Ana().form.endereco == a + b + c;
  }

  /** Visit 4's client name and address hold no 't' in either case. */
  lemma CarlosLacksT()
    ensures 't' !in Carlos().form.cliente && 'T' !in Carlos().form.cliente
    ensures 't' !in Carlos().form.endereco && 'T' !in Carlos().form.endereco
  {
    var a, b, c := "Rua Oscar Freire, 200", " - Jardins", ", São Paulo";
    assert 't' !in a && 'T' !in a;
    assert 't' !in b && 'T' !in b;
    assert 't' !in c && 'T' !in c;
    assert Carlos().form.endereco == a + b + c;
  }

  /** Visit 1 does not match "Paulista". */
  lemma PaulistaNotInMaria()
    ensures !SearchMatches(Maria(), "Paulista")
  {
    MariaLacksT();
    MissingLetterExcludes(Maria().form.cliente, "Paulista", 6, 't', 'T');
    MissingLetterExcludes(Maria().form.endereco, "Paulista", 6, 't', 'T');
  }

  /** Visit 3 does not match "Paulista". */
  lemma PaulistaNotInAna()
    ensures !SearchMatches(Ana(), "Paulista")
  {
    AnaLacksI();
    MissingLetterExcludes(Ana().form.cliente, "Paulista", 4, 'i', 'I');
    MissingLetterExcludes(Ana().form.endereco, "Paulista", 4, 'i', 'I');
  }

  /** Visit 4 does not match "Paulista". */
  lemma PaulistaNotInCarlos()
    ensures !SearchMatches(Carlos(), "Paulista")
  {
    CarlosLacksT();
    MissingLetterExcludes(Carlos().form.cliente, "Paulista", 6, 't', 'T');
    MissingLetterExcludes(Carlos().form.endereco, "Paulista", 6, 't', 'T');
  }

  /** Of the seed, only visit 2 matches "Paulista". */
  lemma PaulistaVerdicts()
    ensures !Matches(Maria(), All, "Paulista") && Matches(Joao(), All, "Paulista")
    ensures !Matches(Ana(), All, "Paulista") && !Matches(Carlos(), All, "Paulista")
  {
    PaulistaInJoao();
    PaulistaNotInMaria();
    PaulistaNotInAna();
    PaulistaNotInCarlos();
  }

  /** Searching the seed for "Paulista" under "todas" shows only visit 2. */
  lemma ScenarioPaulista()
    ensures Filtered(Seed(), All, "Paulista") == [Joao()]
  {
    PaulistaVerdicts();
    KeepSecondOfFour(Maria(), Joao(), Ana(), Carlos(), (v: Visit) => Matches(v, All, "Paulista"));
  }

  /** A new visit saved on the seed gets id 5 and comes first. */
  lemma ScenarioInsert(draft: Form, eventId: string)
    ensures Inserted(Seed(), draft, eventId) == [Visit(5, draft, eventId)] + Seed()
  {
    SeedIds();
    InsertOnNonEmptyStore(Seed(), draft, eventId);
    assert MaxId(Ids(Seed())) == 4 by {
      assert 4 in Ids(Seed());
    }
  }

  /** Deleting id 2 from five visits whose ids are 5, 1, 2, 3, 4 drops the third. */
  lemma RemoveSecondId(x0: Visit, x1: Visit, x2: Visit, x3: Visit, x4: Visit)
    requires x0.id == 5 && x1.id == 1 && x2.id == 2 && x3.id == 3 && x4.id == 4
    ensures Removed([x0, x1, x2, x3, x4], 2) == [x0, x1, x3, x4]
  {
    var id := 2;
    KeepDropsThirdOfFive(x0, x1, x2, x3, x4, (v: Visit) => v.id != id);
  }

  /** The ids of four visits, in order. */
  lemma IdsOfFour(a: Visit, b: Visit, c: Visit, d: Visit)
    ensures Ids([a, b, c, d]) == [a.id, b.id, c.id, d.id]
  {
  }

  /** Deleting visit 2 after that insertion leaves ids 5, 1, 3, 4 in that order. */
  lemma ScenarioInsertThenDelete(eventId: string)
    ensures Ids(Removed(Inserted(Seed(), DefaultDraft().(cliente := "Teste"), eventId), 2)) == [5, 1, 3, 4]
  {
    var draft := DefaultDraft().(cliente := "Teste");
    ScenarioInsert(draft, eventId);
    SeedIds();
    var s := Seed();
    var added := Visit(5, draft, eventId);
    assert [added] + s == [added, s[0], s[1], s[2], s[3]];
    RemoveSecondId(added, s[0], s[1], s[2], s[3]);
    IdsOfFour(added, s[0], s[2], s[3]);
  }
}
