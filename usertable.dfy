/** The paginated table of frontend/src/components/users/UserTable.tsx: what its body
    shows, how each cell reads, the page indicator and the enable conditions of the
    two pagination buttons. */
module UserTable {
  import opened Types
  import opened JsText

  /** `disabled={page <= 1 || loading}` on "previous", negated. */
  predicate PrevEnabled(page: int, loading: bool)
  {
    !(page <= 1 || loading)
  }

  /** `disabled={page >= totalPages || loading || totalPages === 0}` on "next", negated. */
  predicate NextEnabled(page: int, totalPages: int, loading: bool)
  {
    !(page >= totalPages || loading || totalPages == 0)
  }

  /** The page "previous" asks for. */
  function PrevTarget(page: int): int { page - 1 }

  /** The page "next" asks for. */
  function NextTarget(page: int): int { page + 1 }

  /** "Previous" is enabled exactly when there is an earlier page and no load is
      running, and then it asks for a page no lower than 1. */
  lemma PrevGuard(page: int, loading: bool)
    ensures PrevEnabled(page, loading) <==> page > 1 && !loading
    ensures PrevEnabled(page, loading) ==> 1 <= PrevTarget(page) < page
  {
  }

  /** "Next" is enabled exactly when a later page exists and no load is running,
      and then it asks for a page no higher than `totalPages`. */
  lemma NextGuard(page: int, totalPages: int, loading: bool)
    ensures NextEnabled(page, totalPages, loading) <==> page < totalPages && totalPages != 0 && !loading
    ensures NextEnabled(page, totalPages, loading) ==> page < NextTarget(page) <= totalPages
  {
  }

  /** `totalPages || 1`: the indicator never shows page count 0. */
  function PageCount(totalPages: int): (r: int)
    ensures totalPages != 0 ==> r == totalPages
    ensures totalPages == 0 ==> r == 1
  {
    if totalPages == 0 then 1 else totalPages
  }

  /** `u.age ?? "-"` rendered as text. */
  function AgeCell(age: Option<int>): (r: string)
    ensures age.Some? ==> r == IntToString(age.value)
  {
    match age
    case None => "-"
    case Some(n) => IntToString(n)
  }

  /** The dash stands for a missing age only: no number is ever written as "-". */
  lemma AgeCellDashIffNull(age: Option<int>)
    ensures AgeCell(age) == "-" <==> age.None?
  {
    if age.Some? {
      var r := IntToString(age.value);
      assert IsDigit(r[|r| - 1]);
      assert r != "-";
    }
  }

  /** One rendered row: id, name, email and age as text. */
  datatype Row = Row(id: int, name: string, email: string, age: string)

  function RowOf(u: User): (r: Row)
    ensures r.id == u.id && r.name == u.name && r.email == u.email && r.age == AgeCell(u.age)
  {
    Row(u.id, u.name, u.email, AgeCell(u.age))
  }

  /** What the card body shows. */
  datatype TableBody = Loading | EmptyState | Rows(rows: seq<Row>)

  /** The loading message wins; otherwise no users gives the empty state, and
      any users give one row each, in the order received. */
  function Body(users: seq<User>, loading: bool): (b: TableBody)
    ensures loading ==> b == Loading
    ensures !loading && users == [] ==> b == EmptyState
    ensures !loading && users != [] ==>
              b.Rows? && |b.rows| == |users| && forall i :: 0 <= i < |users| ==> b.rows[i] == RowOf(users[i])
  {
    if loading then Loading
    else if users == [] then EmptyState
    else Rows(seq(|users|, i requires 0 <= i < |users| => RowOf(users[i])))
  }
}
