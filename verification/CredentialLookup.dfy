/**
  The cache-free meaning of `replaceInvalidCredentials`: what one credential reference of a
  node should become, given the database and the project.
 */
module CredentialLookup {
  import opened Wrappers

  datatype CredentialRow = CredentialRow(id: string, name: string, credentialType: string,
                                         projectScoped: bool, projects: set<string>)

  /** Everything the repair reads; `unsafeNames` are the property names that are never touched. */
  datatype Context = Context(rows: seq<CredentialRow>, project: string, unsafeNames: set<string>)

  /** Ids are the primary key of the credentials table. */
  ghost predicate UniqueIds(c: Context) {
    forall i, j :: 0 <= i < j < |c.rows| ==> c.rows[i].id != c.rows[j].id
  }

  /** A reference as it is stored in a node: absent, an old-style bare name, or an object. */
  datatype Reference = Absent | BareName(text: string) | Details(id: Option<string>, name: string, gatewayManaged: bool)

  function OfRow(row: CredentialRow): Reference {
    Details(Some(row.id), row.name, false)
  }

  /** `findOneBy({ id, type })`. */
  function FindById(rows: seq<CredentialRow>, id: string, credentialType: string): Option<CredentialRow> {
    if rows == [] then None
    else if rows[0].id == id && rows[0].credentialType == credentialType then Some(rows[0])
    else FindById(rows[1..], id, credentialType)
  }

  predicate Matches(row: CredentialRow, name: string, credentialType: string, project: string) {
    row.name == name && row.credentialType == credentialType && row.projectScoped && project in row.projects
  }

  /** `findByNameAndTypeInProject`. */
  function FindByName(rows: seq<CredentialRow>, name: string, credentialType: string, project: string)
    : (r: seq<CredentialRow>)
    ensures forall row :: row in r <==> row in rows && Matches(row, name, credentialType, project)
  {
    if rows == [] then []
    else
      var rest := FindByName(rows[1..], name, credentialType, project);
      if Matches(rows[0], name, credentialType, project) then [rows[0]] + rest else rest
  }

  /** The row a name stands for, when the name is unique for its type within the project. */
  function UniqueByName(c: Context, name: string, credentialType: string): Option<CredentialRow> {
    var found := FindByName(c.rows, name, credentialType, c.project);
    if |found| == 1 then Some(found[0]) else None
  }

  /** The reference resolver without a cache. */
  function Resolve(c: Context, credentialType: string, r: Reference): Reference {
    if credentialType in c.unsafeNames then r
    else match r
      case Absent => r
      case BareName(name) =>
        var row := UniqueByName(c, name, credentialType);
        if row.Some? then OfRow(row.value) else r
      case Details(id, name, managed) =>
        if managed then r
        else if id.None? then
          var row := UniqueByName(c, name, credentialType);
          if row.Some? then OfRow(row.value) else r
        else
          var byId := FindById(c.rows, id.value, credentialType);
          if byId.Some? then OfRow(byId.value)
          else
            var row := UniqueByName(c, name, credentialType);
            if row.Some? then OfRow(row.value) else r
  }

  /**
    The only freedom the cache takes: an unresolvable bare name may come back as the object
    with no id and that name.
   */
  predicate Agree(expected: Reference, actual: Reference) {
    actual == expected || (expected.BareName? && actual == Details(None, expected.text, false))
  }

  lemma {:induction false} FindByIdFinds(rows: seq<CredentialRow>, id: string, credentialType: string)
    ensures var r := FindById(rows, id, credentialType);
            && (r.Some? ==> r.value in rows && r.value.id == id && r.value.credentialType == credentialType)
            && (r.None? ==> forall row :: row in rows ==> !(row.id == id && row.credentialType == credentialType))
    decreases |rows|
  {
    if rows != [] {
      FindByIdFinds(rows[1..], id, credentialType);
    }
  }

  /** With unique ids, a row in the table is the one its own id and type find. */
  lemma RowIsFoundById(c: Context, row: CredentialRow)
    requires UniqueIds(c) && row in c.rows
    ensures FindById(c.rows, row.id, row.credentialType) == Some(row)
  {
    FindByIdFinds(c.rows, row.id, row.credentialType);
  }

  /** Repairing a repaired reference changes nothing. */
  lemma ResolveIsIdempotent(c: Context, credentialType: string, r: Reference)
    requires UniqueIds(c)
    ensures Resolve(c, credentialType, Resolve(c, credentialType, r)) == Resolve(c, credentialType, r)
  {
    var once := Resolve(c, credentialType, r);
    if once != r {
      if r.Details? && r.id.Some? && FindById(c.rows, r.id.value, credentialType).Some? {
        FindByIdFinds(c.rows, r.id.value, credentialType);
        RowIsFoundById(c, FindById(c.rows, r.id.value, credentialType).value);
      } else {
        var name := if r.BareName? then r.text else r.name;
        var found := FindByName(c.rows, name, credentialType, c.project);
        assert found[0] in found;
        RowIsFoundById(c, found[0]);
      }
    }
  }

  /** The freedom of `Agree` is harmless: references that agree are repaired to references that agree. */
  lemma ResolveRespectsAgree(c: Context, credentialType: string, a: Reference, b: Reference)
    requires Agree(a, b)
    ensures Agree(Resolve(c, credentialType, a), Resolve(c, credentialType, b))
  {
  }

  /** References that the repair does not look at. */
  predicate Exempt(c: Context, credentialType: string, r: Reference) {
    credentialType in c.unsafeNames || r.Absent? || (r.Details? && r.gatewayManaged)
  }

  /** An exempt reference stays as it is. */
  lemma ExemptReferencesStay(c: Context, credentialType: string, r: Reference)
    requires Exempt(c, credentialType, r)
    ensures Resolve(c, credentialType, r) == r
  {
  }

  /**
    What any other repaired reference is worth, stated without the resolver: a row with the
    wanted id and type if there is one, otherwise the only project row of that name and type
    that is shared with the project, otherwise the reference as it was.
   */
  lemma ResolveMeaning(c: Context, credentialType: string, r: Reference)
    requires UniqueIds(c) && !Exempt(c, credentialType, r)
    ensures var wantedId := if r.Details? then r.id else None;
            var name := if r.BareName? then r.text else r.name;
            var result := Resolve(c, credentialType, r);
            var owned := set row | row in c.rows && row.name == name && row.credentialType == credentialType
                                   && row.projectScoped && c.project in row.projects;
            if exists row :: row in c.rows && wantedId == Some(row.id) && row.credentialType == credentialType
            then exists row :: row in c.rows && wantedId == Some(row.id) && row.credentialType == credentialType
                               && result == Details(Some(row.id), row.name, false)
            else if exists row :: owned == {row}
            then exists row :: owned == {row} && result == Details(Some(row.id), row.name, false)
            else result == r
  {
    UniqueByNameMeaning(c, if r.BareName? then r.text else r.name, credentialType);
    if r.Details? && r.id.Some? {
      FindByIdFinds(c.rows, r.id.value, credentialType);
    }
  }

  /** A name stands for a row iff that is the only project row of the name and type that the project holds. */
  lemma UniqueByNameMeaning(c: Context, name: string, credentialType: string)
    requires UniqueIds(c)
    ensures var owned := set row | row in c.rows && row.name == name && row.credentialType == credentialType
                           && row.projectScoped && c.project in row.projects;
            var row := UniqueByName(c, name, credentialType);
            if row.Some? then owned == {row.value} else forall only :: owned != {only}
  {
    var found := FindByName(c.rows, name, credentialType, c.project);
    var owned := set row | row in c.rows && row.name == name && row.credentialType == credentialType
                           && row.projectScoped && c.project in row.projects;
    assert forall row :: row in found <==> row in owned;
    FindByNameHasNoRepeats(c.rows, name, credentialType, c.project);
    assert NoRepeats(found);
    if |found| == 1 {
      assert owned == {found[0]};
    } else if |found| >= 2 {
      assert found[0] in owned && found[1] in owned && found[0] != found[1];
      assert forall only :: found[0] in {only} && found[1] in {only} ==> found[0] == found[1];
    } else {
      assert forall only :: only in {only} && only !in owned;
    }
  }

  /** The row is the one the reference asked for by id, or a project row of the context's own project. */
  ghost predicate MayPointAt(c: Context, credentialType: string, r: Reference, row: CredentialRow) {
    && row in c.rows && row.credentialType == credentialType
    && ((r.Details? && r.id == Some(row.id)) || (row.projectScoped && c.project in row.projects))
  }

  /** A name never leads into another project: what is not found by id is found in the own project. */
  lemma NamesStayInProject(c: Context, credentialType: string, r: Reference)
    ensures var result := Resolve(c, credentialType, r);
            result != r ==> exists row ::
              MayPointAt(c, credentialType, r, row) && result == Details(Some(row.id), row.name, false)
  {
    if Resolve(c, credentialType, r) != r {
      if r.Details? && r.id.Some? && FindById(c.rows, r.id.value, credentialType).Some? {
        FindByIdFinds(c.rows, r.id.value, credentialType);
        assert MayPointAt(c, credentialType, r, FindById(c.rows, r.id.value, credentialType).value);
      } else {
        var found := FindByName(c.rows, if r.BareName? then r.text else r.name, credentialType, c.project);
        assert found[0] in found;
        assert MayPointAt(c, credentialType, r, found[0]);
      }
    }
  }

  ghost predicate NoRepeats<T>(s: seq<T>) {
    forall i, j :: 0 <= i < j < |s| ==> s[i] != s[j]
  }

  lemma {:induction false} FindByNameHasNoRepeats(rows: seq<CredentialRow>, name: string, credentialType: string, project: string)
    requires forall i, j :: 0 <= i < j < |rows| ==> rows[i].id != rows[j].id
    ensures NoRepeats(FindByName(rows, name, credentialType, project))
    decreases |rows|
  {
    if rows != [] {
      FindByNameHasNoRepeats(rows[1..], name, credentialType, project);
      var rest := FindByName(rows[1..], name, credentialType, project);
      assert rows[0] !in rest;
      assert NoRepeats([rows[0]] + rest);
    }
  }
}
