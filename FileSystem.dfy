/** The working directory as the bundler sees it through `fs`: regular files
    with their text, and directories. */
module FileSystem {
  import opened Wrappers

  /** Why `fs.promises.readFile` rejects. */
  datatype ReadError = NoSuchFile | IsADirectory

  /** A path is assumed never to be both a file and a directory. Nothing
      here states or checks that: a path in both would be read as a file by
      `ReadFile`. The bundler creates `.fleek` only where nothing exists. */
  class Workspace {
    var files: map<string, string>
    var directories: set<string>

    constructor (files0: map<string, string>, directories0: set<string>)
      ensures files == files0 && directories == directories0
    {
      files, directories := files0, directories0;
    }

    /** `fs.existsSync(path)`: true for files and directories alike. */
    predicate Exists(path: string)
      reads this
    {
      path in files || path in directories
    }

    /** `fs.mkdirSync(path)`. */
    method MakeDirectory(path: string)
      modifies this
      ensures directories == old(directories) + {path} && files == old(files)
    {
      directories := directories + {path};
    }

    /** `fs.promises.writeFile(path, content)`: creates or replaces one file. */
    method WriteFile(path: string, content: string)
      modifies this
      ensures files == old(files)[path := content] && directories == old(directories)
    {
      files := files[path := content];
    }

    /** `fs.promises.readFile(path)` turned into text. */
    method ReadFile(path: string) returns (r: Result<string, ReadError>)
      ensures path in files ==> r == Success(files[path])
      ensures path !in files && path in directories ==> r == Failure(IsADirectory)
      ensures !Exists(path) ==> r == Failure(NoSuchFile)
    {
      if path in files {
        r := Success(files[path]);
      } else if path in directories {
        r := Failure(IsADirectory);
      } else {
        r := Failure(NoSuchFile);
      }
    }
  }
}
