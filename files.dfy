/** The part of the file system the modelled programs touch: a directory tree
    seen as a map from path to file text, plus the modification times that were
    set explicitly with `touch -t`. */
module Files {

  class Directory {
    /** Path (relative to the directory) to file contents. */
    var files: map<string, string>
    /** Path to the `touch -t` stamp that is the file's modification time. A file
        written since its last touch carries the time of that write instead, which
        is not modelled, so it has no entry here. */
    var stamps: map<string, string>

    constructor (files: map<string, string>)
      ensures this.files == files && stamps == map[]
    {
      this.files := files;
      stamps := map[];
    }

    /** `fs.writeFile(path, text)`: creates or replaces one file. */
    method WriteFile(path: string, text: string)
      modifies this
      ensures files == old(files)[path := text]
      ensures stamps == old(stamps) - {path}
    {
      files := files[path := text];
      stamps := stamps - {path};
    }

    /** `fs.appendFile(path, text)`: adds to the end of a file, creating it
        when it is missing. */
    method AppendFile(path: string, text: string)
      modifies this
      ensures files == old(files)[path := (if path in old(files) then old(files)[path] else "") + text]
      ensures stamps == old(stamps) - {path}
    {
      files := files[path := (if path in files then files[path] else "") + text];
      stamps := stamps - {path};
    }

    /** `fs.rmdirSync(dir, { recursive: true })` on the directory itself:
        every file goes. */
    method RemoveAll()
      modifies this
      ensures files == map[] && stamps == map[]
    {
      files := map[];
      stamps := map[];
    }

    /** `fs.unlink(path)`. */
    method Unlink(path: string)
      modifies this
      ensures files == old(files) - {path}
      ensures stamps == old(stamps) - {path}
    {
      files := files - {path};
      stamps := stamps - {path};
    }

    /** `touch -t stamp path` on an existing file: sets its modification time. */
    method Touch(path: string, stamp: string)
      requires path in files
      modifies this`stamps
      ensures stamps == old(stamps)[path := stamp]
    {
      stamps := stamps[path := stamp];
    }
  }
}
