/** The rows of the database the session flows read and write: the users
 *  table keyed by normalised phone number, the provider_details rows with
 *  their availability, and the notifications sent. Connections, SQL text
 *  and SQLException are not modelled. */
module Store {
  import opened JavaLang

  /** A row of the users table. */
  datatype UserRow = UserRow(id: int, fullName: string, phone: string, password: string, role: string, status: string)

  class Database {
    var users: map<string, UserRow>
    /** provider_details: provider_id to availability_status. */
    var providerDetails: map<int, string>
    /** Rows written by DatabaseHelper.sendNotification: (user_id, message). */
    var notifications: seq<(int, string)>
    /** The next generated user_id. */
    var nextUserId: int

    /** Every row is stored under its own phone number, and user ids are
     *  positive, below the next generated key and distinct. */
    ghost predicate Valid()
      reads this
    {
      && nextUserId >= 1
      && KeyedByPhone(users)
      && (forall ph :: ph in users ==> 1 <= users[ph].id < nextUserId)
      && (forall ph, qh :: ph in users && qh in users && ph != qh ==> users[ph].id != users[qh].id)
    }

    constructor ()
      ensures Valid()
      ensures users == map[] && providerDetails == map[] && notifications == [] && nextUserId == 1
    {
      users, providerDetails, notifications, nextUserId := map[], map[], [], 1;
    }

    /** INSERT INTO users, returning the generated key. */
    method InsertUser(fullName: string, phone: string, password: string, role: string, status: string)
      returns (id: int)
      requires Valid() && phone !in users
      modifies this
      ensures Valid()
      ensures id == old(nextUserId) && nextUserId == old(nextUserId) + 1
      ensures users == old(users)[phone := UserRow(id, fullName, phone, password, role, status)]
      ensures providerDetails == old(providerDetails) && notifications == old(notifications)
    {
      id := nextUserId;
      users := users[phone := UserRow(id, fullName, phone, password, role, status)];
      nextUserId := nextUserId + 1;
    }

    /** UPDATE users SET status = ? WHERE user_id = ?. */
    method SetUserStatus(id: int, status: string)
      requires Valid()
      modifies this
      ensures Valid()
      ensures users == map ph | ph in old(users) ::
        if old(users)[ph].id == id then old(users)[ph].(status := status) else old(users)[ph]
      ensures providerDetails == old(providerDetails) && notifications == old(notifications)
      ensures nextUserId == old(nextUserId)
    {
      users := map ph | ph in users :: if users[ph].id == id then users[ph].(status := status) else users[ph];
    }

    /** DatabaseHelper.sendNotification. */
    method SendNotification(userId: int, message: string)
      modifies this
      ensures notifications == old(notifications) + [(userId, message)]
      ensures users == old(users) && providerDetails == old(providerDetails) && nextUserId == old(nextUserId)
    {
      notifications := notifications + [(userId, message)];
    }

    /** UPDATE provider_details SET availability_status = ? WHERE provider_id = ?:
     *  only an existing row changes. */
    method UpdateAvailability(providerId: int, status: string)
      modifies this
      ensures providerDetails ==
        if providerId in old(providerDetails) then old(providerDetails)[providerId := status]
        else old(providerDetails)
      ensures users == old(users) && notifications == old(notifications) && nextUserId == old(nextUserId)
    {
      if providerId in providerDetails {
        providerDetails := providerDetails[providerId := status];
      }
    }
  }

  /** Every row is stored under its own phone number. */
  predicate KeyedByPhone(users: map<string, UserRow>)
  {
    forall ph :: ph in users ==> users[ph].phone == ph
  }

  /** SELECT * FROM users WHERE phone_number = ? AND role = ?. */
  function FindUser(users: map<string, UserRow>, phone: string, role: string): Option<UserRow>
  {
    if phone in users && users[phone].role == role then Some(users[phone]) else None
  }

  /** The keyed lookup answers the query over the rows: a row is found
   *  exactly when some stored row has that phone and that role, and the row
   *  found is one of them. */
  lemma FindUserIsQuery(users: map<string, UserRow>, phone: string, role: string)
    requires KeyedByPhone(users)
    ensures FindUser(users, phone, role).Some? <==>
      exists u :: u in users.Values && u.phone == phone && u.role == role
    ensures FindUser(users, phone, role).Some? ==>
      var u := FindUser(users, phone, role).value;
      u in users.Values && u.phone == phone && u.role == role
  {
    if exists u :: u in users.Values && u.phone == phone && u.role == role {
      var u :| u in users.Values && u.phone == phone && u.role == role;
      var ph :| ph in users && users[ph] == u;
      assert ph == phone;
    }
    if phone in users {
      assert users[phone] in users.Values;
    }
  }
}
