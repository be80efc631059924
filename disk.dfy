/**
 * The part of the file system the element touches: regular files with their
 * contents, and the set of existing directories.
 */
module Disk {
  import opened Common

  class FileSystem {
    var files: Files
    var dirs: set<string>

    constructor (files: Files, dirs: set<string>)
      ensures this.files == files && this.dirs == dirs
    {
      this.files := files;
      this.dirs := dirs;
    }

    /** The renderer's side effect: `data` is written to `path`, replacing an older file there. */
    method Write(path: string, data: Bytes)
      modifies this
      ensures files == old(files)[path := data] && dirs == old(dirs)
    {
      files := files[path := data];
    }

    /** `os.remove(path)` on an existing file. */
    method Remove(path: string)
      requires path in files
      modifies this
      ensures files == old(files) - {path} && dirs == old(dirs)
    {
      files := files - {path};
    }
  }
}
