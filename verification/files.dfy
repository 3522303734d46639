/** The working directory the generator writes into, seen as a map from file
    name to file contents. Only the two ways the program opens a file for
    writing are modelled: mode 'w' (create or truncate, then write) and mode
    'a' (create if missing, then add at the end). */
module Files {

  /** The contents of `name`, or the empty text when there is no such file
      (what a file opened in mode 'a' starts from). */
  function ContentsOf(files: map<string, string>, name: string): string {
    if name in files then files[name] else ""
  }

  class Directory {
    var files: map<string, string>

    constructor (initial: map<string, string>)
      ensures files == initial
    {
      files := initial;
    }

    /** `with open(name, 'w') as f: f.write(text)`. */
    method Write(name: string, text: string)
      modifies this
      ensures files == old(files)[name := text]
    {
      files := files[name := text];
    }

    /** `with open(name, 'a') as f: f.write(text)`. */
    method Append(name: string, text: string)
      modifies this
      ensures files == old(files)[name := ContentsOf(old(files), name) + text]
    {
      files := files[name := ContentsOf(files, name) + text];
    }
  }
}
