/** A directory of the local filesystem with its inodes. */
module Filesystem {
  import opened Common

  type Name = Bytes
  type Inode = nat

  /** Names lead to inodes and inodes to bytes; an inode outlives its names while it is open. */
  datatype Fs = Fs(dir: map<Name, Inode>, heap: map<Inode, Bytes>, next: Inode) {
    ghost predicate Valid() {
      && (forall name :: name in dir ==> dir[name] in heap)
      && (forall inode :: inode in heap ==> inode < next)
    }

    function Contents(name: Name): Option<Bytes> {
      if name in dir && dir[name] in heap then Some(heap[dir[name]]) else None
    }

    /** The inode has no name but this one. */
    ghost predicate OnlyAt(inode: Inode, stage: Name) {
      forall name :: name in dir && dir[name] == inode ==> name == stage
    }
  }

  function Created(fs: Fs, name: Name): Fs {
    Fs(fs.dir[name := fs.next], fs.heap[fs.next := []], fs.next + 1)
  }

  function Appended(fs: Fs, inode: Inode, data: Bytes): Fs
    requires inode in fs.heap
  {
    fs.(heap := fs.heap[inode := fs.heap[inode] + data])
  }

  /** A second name for the same inode. */
  function Linked(fs: Fs, from: Name, to: Name): Fs
    requires from in fs.dir
  {
    fs.(dir := fs.dir[to := fs.dir[from]])
  }

  /** POSIX rename: the new name takes the inode over, unless both are names of one inode. */
  function Replaced(fs: Fs, from: Name, to: Name): Fs
    requires from in fs.dir
  {
    if to in fs.dir && fs.dir[to] == fs.dir[from] then fs
    else fs.(dir := (fs.dir - {from})[to := fs.dir[from]])
  }

  function Unlinked(fs: Fs, name: Name): Fs {
    fs.(dir := fs.dir - {name})
  }
}
