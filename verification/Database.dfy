/** The tables both stores work on. */
module Database {
  import J = Job
  import U = Upload
  import UT = UploadTables

  class Database {
    var uploads: map<nat, U.Session>
    var parts: map<UT.PartKey, U.Part>
    var jobs: map<nat, J.Job>

    constructor ()
      ensures uploads == map[] && parts == map[] && jobs == map[]
    {
      uploads := map[];
      parts := map[];
      jobs := map[];
    }

    /** The two upload tables as one value. */
    ghost function Uploads(): UT.Tables
      reads this
    {
      UT.Tables(uploads, parts)
    }
  }
}
