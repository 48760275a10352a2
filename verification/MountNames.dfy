/** The names and paths the session layer gives to its mounts. */
module MountNames {

  function Digit(d: nat): char
    requires d < 10
  {
    (d + 48) as char
  }

  /** %d of a non-negative number. */
  function Decimal(n: nat): string {
    if n < 10 then [Digit(n)] else Decimal(n / 10) + [Digit(n % 10)]
  }

  function WholeName(disk: nat): string {
    "anyfs_d" + Decimal(disk) + "_whole"
  }

  function PartName(disk: nat, index: nat): string {
    "anyfs_d" + Decimal(disk) + "_p" + Decimal(index)
  }

  /** The mount point of a name, which an enter returns. */
  function MountedPath(name: string): string {
    "/lklmnt/" + name
  }
}
