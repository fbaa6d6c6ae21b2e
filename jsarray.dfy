/** A JavaScript array that is written by index: entries are set one index
    at a time, and indices never written are absent (`undefined`). */
module JsArrays {

  class JsArray<T> {
    var slots: map<nat, T>

    /** An empty array literal `[]`. */
    constructor ()
      ensures slots == map[]
    {
      slots := map[];
    }

    /** `a[i] = v`: sets entry `i`, leaving every other entry as it was. */
    method Set(i: nat, v: T)
      modifies this
      ensures slots == old(slots)[i := v]
    {
      slots := slots[i := v];
    }
  }
}
