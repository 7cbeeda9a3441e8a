/** The user-record helpers of src/utils/auth.utils.js. */
module AuthUtils {
  import opened Database

  /** The columns `sanitizeUserData` strips from a user. */
  const SensitiveColumns: set<string> := {"password", "email", "createdAt", "updatedAt"}

  /** sanitizeUserData: a copy of the user without the sensitive columns.
      The argument is a value, so the caller's record is left as it was. */
  function Sanitize(user: Row): (r: Row)
    ensures forall k :: k in r <==> k in user && k !in SensitiveColumns
    ensures forall k :: k in r ==> r[k] == user[k]
  {
    user - SensitiveColumns
  }

  /** None of the four sensitive columns survives. */
  lemma SanitizeStrips(user: Row)
    ensures "password" !in Sanitize(user) && "email" !in Sanitize(user)
    ensures "createdAt" !in Sanitize(user) && "updatedAt" !in Sanitize(user)
  {
  }

  /** Sanitizing a sanitized record changes nothing. */
  lemma SanitizeIdempotent(user: Row)
    ensures Sanitize(Sanitize(user)) == Sanitize(user)
  {
  }
}
