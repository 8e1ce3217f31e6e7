/**
 * File-change events as the watcher delivers them, the ignore map, and the
 * filter that decides which events reach the debouncer
 * (internal/livereload/livereload.go, the select arm over Watcher.Events()).
 */
module Events {
  import opened GoStrings

  /** fsnotify.Op: a bit set of what happened to the file. */
  type Op = bv32

  const Create: Op := 1
  const Write: Op := 2
  const Remove: Op := 4
  const Rename: Op := 8
  const Chmod: Op := 16

  /** fsnotify.Event: the path that changed and the operations seen on it. */
  datatype Event = Event(name: string, op: Op)

  /**
   * The ignore map of the configuration, keyed by base name. Like a Go map
   * of booleans, a missing key reads as false.
   */
  type IgnoreMap = map<string, bool>

  predicate Lookup(m: IgnoreMap, key: string) {
    key in m && m[key]
  }

  /** `op & bit == bit`. */
  predicate HasOp(op: Op, bit: Op) {
    op & bit == bit
  }

  /** The event is a write, a create or a remove (possibly among other bits). */
  predicate IsChange(op: Op)
    ensures IsChange(op) <==> op & (Write | Create | Remove) != 0
  {
    HasOp(op, Write) || HasOp(op, Create) || HasOp(op, Remove)
  }

  /** The event passes both checks of the listener loop and (re)arms the debounce timer. */
  predicate Qualifies(ignore: IgnoreMap, ev: Event)
    ensures Qualifies(ignore, ev) <==> !Lookup(ignore, Base(ev.name)) && ev.op & (Write | Create | Remove) != 0
  {
    !Lookup(ignore, Base(ev.name)) && IsChange(ev.op)
  }

  /**
   * The change test is one mask test: some bit among Write, Create and Remove
   * is set. Chmod-only and Rename-only events therefore never qualify.
   */
  lemma IsChangeMask(op: Op)
    ensures IsChange(op) <==> op & (Write | Create | Remove) != 0
    ensures !IsChange(Chmod) && !IsChange(Rename) && !IsChange(Chmod | Rename)
    ensures IsChange(op | Write)
  {
  }

  /**
   * Ignoring is by base name only: an event whose last path element is an
   * ignored name (mapped to true) is dropped, whatever its directory and kind.
   */
  lemma IgnoredByBaseName(ignore: IgnoreMap, dir: string, name: string, op: Op)
    requires name != [] && '/' !in name
    requires Lookup(ignore, name)
    ensures !Qualifies(ignore, Event(dir + "/" + name, op))
  {
    BaseOfChild(dir, name);
  }

  /**
   * A write to a file whose base name is not ignored qualifies, wherever the
   * file is.
   */
  lemma WriteQualifies(ignore: IgnoreMap, dir: string, name: string, op: Op)
    requires name != [] && '/' !in name
    requires !Lookup(ignore, name)
    requires IsChange(op)
    ensures Qualifies(ignore, Event(dir + "/" + name, op))
  {
    BaseOfChild(dir, name);
  }
}
