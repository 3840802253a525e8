/**
 * The browser's `localStorage`: a string-to-string dictionary shared by every
 * caller. Two flags say how the browser lets it be used: when `accessible` is
 * false every access throws (storage disabled, access denied); when `full` is
 * true every `setItem` throws (quota exceeded) while reads and removals work.
 */
module WebStorage {
  datatype Store = Store(items: map<string, string>, accessible: bool, full: bool) {
    /** `setItem` succeeds. */
    predicate Writable() {
      accessible && !full
    }
  }

  class LocalStorage {
    var items: map<string, string>
    var accessible: bool
    var full: bool

    /** The dictionary and its two failure flags as one value. */
    function State(): Store
      reads this
    {
      Store(items, accessible, full)
    }

    constructor (items: map<string, string>, accessible: bool, full: bool)
      ensures State() == Store(items, accessible, full)
    {
      this.items := items;
      this.accessible := accessible;
      this.full := full;
    }
  }
}
