/**
 * The client types a token carries. The services compare the raw client-type
 * string against four fixed names; any other string is kept as Unknown and
 * passes no role test.
 */
module Roles {
  import opened Domain

  datatype Role = UserRole | RestaurantRole | CourierRole | AdminRole | Unknown(name: string)

  const UserType := "user"
  const RestaurantType := "restaurant"
  const CourierType := "courier"
  const AdminType := "admin"

  /** The client-type string a role is compared with (and printed as in "Forbidden for ..."). */
  function Name(r: Role): string {
    match r
    case UserRole => UserType
    case RestaurantRole => RestaurantType
    case CourierRole => CourierType
    case AdminRole => AdminType
    case Unknown(n) => n
  }

  /** A role as it can arise from a client-type string: Unknown never holds one of the four names. */
  predicate WellFormed(r: Role) {
    r.Unknown? ==> r.name != UserType && r.name != RestaurantType && r.name != CourierType && r.name != AdminType
  }

  /** The role a client-type string stands for. */
  function Parse(clientType: string): (r: Role)
    ensures WellFormed(r)
    ensures Name(r) == clientType
  {
    if clientType == UserType then UserRole
    else if clientType == RestaurantType then RestaurantRole
    else if clientType == CourierType then CourierRole
    else if clientType == AdminType then AdminRole
    else Unknown(clientType)
  }

  /** Parsing the name of a well-formed role gives the role back, so Name is injective on them. */
  lemma ParseName(r: Role)
    requires WellFormed(r)
    ensures Parse(Name(r)) == r
  {
  }

  /** The error a service returns to a client whose role may not perform an operation, naming the role. */
  function Forbidden(role: Role): Error {
    Message("Forbidden for " + Name(role))
  }

  /** The message names the role: two well-formed roles refused with the same error are the same role. */
  lemma ForbiddenNamesRole(a: Role, b: Role)
    requires WellFormed(a) && WellFormed(b)
    requires Forbidden(a) == Forbidden(b)
    ensures a == b
  {
    var prefix := "Forbidden for ";
    assert Name(a) == Forbidden(a).text[|prefix|..];
    assert Name(b) == Forbidden(b).text[|prefix|..];
    ParseName(a);
    ParseName(b);
  }
}
